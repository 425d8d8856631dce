/** Activation codes: 12 signed bytes, a truncated signature and a checksum, printed in base 32. */
module Codes {
  import opened Options
  import opened Text
  import opened Base32

  type Days = d: int | -32768 <= d < 32768
  type Random = s: seq<Byte> | |s| == 6 witness [0, 0, 0, 0, 0, 0]
  type Distributor = s: seq<Byte> | |s| == 4 witness [0, 0, 0, 0]
  type Digest = s: seq<Byte> | |s| == 32 witness seq(32, _ => 0)

  /** The signature function: HMAC-SHA256 in the program, any function here. */
  type Signer = (seq<Byte>, seq<Byte>) -> Digest

  datatype CodeError = InvalidFormat | InvalidChecksum
  datatype Checked<T> = Ok(value: T) | Err(error: CodeError)

  // ----- the 16 bytes -----

  function DaysToBytes(d: Days): (b: seq<Byte>)
    ensures |b| == 2
  {
    var u := d % 65536;
    [u / 256, u % 256]
  }

  function DaysFromBytes(b: seq<Byte>): Days
    requires |b| == 2
  {
    var u: nat := b[0] as int * 256 + b[1] as int;
    if u < 32768 then u else u - 65536
  }

  function Sum(data: seq<nat>): nat {
    if data == [] then 0 else data[0] + Sum(data[1..])
  }

  /** The wrapping fold over the bytes. */
  function ChecksumFrom(acc: Byte, data: seq<Byte>): (c: Byte)
    ensures c == (acc + Sum(data)) % 256
    decreases |data|
  {
    if data == [] then acc
    else
      WrapSum(acc + data[0], Sum(data[1..]));
      ChecksumFrom((acc + data[0]) % 256, data[1..])
  }

  lemma WrapSum(x: nat, y: nat)
    ensures (x % 256 + y) % 256 == (x + y) % 256
  {
  }

  function Checksum(data: seq<Byte>): (c: Byte)
    ensures c == Sum(data) % 256
  {
    ChecksumFrom(0, data)
  }

  function Signed(random: Random, days: Days, distributor: Distributor): (b: seq<Byte>)
    ensures |b| == 12
  {
    random + DaysToBytes(days) + distributor
  }

  function Payload(random: Random, days: Days, distributor: Distributor, secret: seq<Byte>, sign: Signer):
    (b: seq<Byte>)
    ensures |b| == 16
  {
    var data := Signed(random, days, distributor);
    var withSig := data + sign(data, secret)[..3];
    withSig + [Checksum(withSig)]
  }

  // ----- the text -----

  /** Groups of five characters joined by dashes. */
  function Format(s: string): string {
    if |s| <= 5 then s else s[..5] + "-" + Format(s[5..])
  }

  function StripDashes(s: string): string {
    if s == [] then []
    else if s[0] == '-' then StripDashes(s[1..])
    else [s[0]] + StripDashes(s[1..])
  }

  function CodeText(random: Random, days: Days, distributor: Distributor, secret: seq<Byte>, sign: Signer): string {
    Format(Upper(Encode(Payload(random, days, distributor, secret, sign))))
  }

  method NewCode(random: Random, days: Days, distributor: Distributor, secret: seq<Byte>, sign: Signer)
    returns (text: string)
    ensures text == CodeText(random, days, distributor, secret, sign)
  {
    var payload: seq<Byte> := [];
    payload := payload + random;
    payload := payload + DaysToBytes(days);
    payload := payload + distributor;
    assert payload == Signed(random, days, distributor);
    var sig := sign(payload, secret);
    payload := payload + sig[..3];
    var check := Checksum(payload);
    payload := payload + [check];
    text := Format(Upper(Encode(payload)));
  }

  /** What the 16 decoded bytes mean. */
  function Read(bytes: seq<Byte>, secret: seq<Byte>, sign: Signer): Option<(Days, Distributor)> {
    if |bytes| != 16 then None
    else if Checksum(bytes[..15]) != bytes[15] then None
    else if sign(bytes[..12], secret)[..3] != bytes[12..15] then None
    else Some((DaysFromBytes(bytes[6..8]), bytes[8..12]))
  }

  function Parse(s: string, secret: seq<Byte>, sign: Signer): Option<(Days, Distributor)> {
    match Decode(Upper(StripDashes(s)))
    case None => None
    case Some(bytes) => Read(bytes, secret, sign)
  }

  /** A text typed by a user becomes a code when it spells 16 bytes. */
  function FromStr(s: string): Checked<string> {
    match Decode(Upper(StripDashes(s)))
    case None => Err(InvalidFormat)
    case Some(bytes) => if |bytes| != 16 then Err(InvalidFormat) else Ok(Upper(s))
  }

  function Validate(code: string, secret: seq<Byte>, sign: Signer): Checked<(Days, Distributor)> {
    match Parse(code, secret, sign)
    case Some(data) => Ok(data)
    case None => Err(InvalidChecksum)
  }

  // ----- round trip -----

  lemma DaysRoundTrip(d: Days)
    ensures DaysFromBytes(DaysToBytes(d)) == d
  {
  }

  lemma ReadPayload(random: Random, days: Days, distributor: Distributor, secret: seq<Byte>, sign: Signer)
    ensures Read(Payload(random, days, distributor, secret, sign), secret, sign) == Some((days, distributor))
  {
    var data := Signed(random, days, distributor);
    var withSig := data + sign(data, secret)[..3];
    var p := Payload(random, days, distributor, secret, sign);
    assert p[..15] == withSig && p[..12] == data && p[12..15] == sign(data, secret)[..3];
    assert p[6..8] == DaysToBytes(days) && p[8..12] == distributor;
    DaysRoundTrip(days);
  }

  lemma DaysFromTwoBytes(b: seq<Byte>)
    requires |b| == 2
    ensures DaysToBytes(DaysFromBytes(b)) == b
  {
  }

  /** Sixteen bytes read as these days and distributor exactly if they are a payload made with the same secret. */
  lemma ReadExact(bytes: seq<Byte>, secret: seq<Byte>, sign: Signer, days: Days, distributor: Distributor)
    ensures Read(bytes, secret, sign) == Some((days, distributor)) <==>
            exists random: Random :: bytes == Payload(random, days, distributor, secret, sign)
  {
    if Read(bytes, secret, sign) == Some((days, distributor)) {
      var random: Random := bytes[..6];
      DaysFromTwoBytes(bytes[6..8]);
      assert bytes[..12] == Signed(random, days, distributor);
      assert bytes[..15] == bytes[..12] + bytes[12..15] && bytes == bytes[..15] + [bytes[15]];
      assert bytes == Payload(random, days, distributor, secret, sign);
    }
    if random: Random :| bytes == Payload(random, days, distributor, secret, sign) {
      ReadPayload(random, days, distributor, secret, sign);
    }
  }

  /** What is accepted, and what it means: exactly the texts whose letters spell a payload that was made with the same
      secret, and that payload's days and distributor. */
  lemma ParseExact(s: string, secret: seq<Byte>, sign: Signer, days: Days, distributor: Distributor)
    ensures Parse(s, secret, sign) == Some((days, distributor)) <==>
            exists random: Random ::
              Decode(Upper(StripDashes(s))) == Some(Payload(random, days, distributor, secret, sign))
    ensures Validate(s, secret, sign) == Ok((days, distributor)) <==>
            Parse(s, secret, sign) == Some((days, distributor))
    ensures Validate(s, secret, sign).Err? ==> Validate(s, secret, sign).error == InvalidChecksum
  {
    var spelled := Decode(Upper(StripDashes(s)));
    if spelled.Some? {
      ReadExact(spelled.value, secret, sign, days, distributor);
      if random: Random :| spelled.value == Payload(random, days, distributor, secret, sign) {
        assert spelled == Some(Payload(random, days, distributor, secret, sign));
      }
    }
  }

  /** When a text is accepted at all: its letters spell sixteen bytes, the last is the sum of the others modulo 256, and
      the three before it begin the signature of the first twelve. */
  lemma AcceptedExact(s: string, secret: seq<Byte>, sign: Signer)
    ensures Parse(s, secret, sign).Some? <==>
            && Decode(Upper(StripDashes(s))).Some?
            && var bytes := Decode(Upper(StripDashes(s))).value;
            |bytes| == 16 && bytes[15] == Sum(bytes[..15]) % 256 && bytes[12..15] == sign(bytes[..12], secret)[..3]
  {
  }

  predicate NoDash(s: string) {
    forall i :: 0 <= i < |s| ==> s[i] != '-'
  }

  lemma {:induction false} StripConcat(a: string, b: string)
    ensures StripDashes(a + b) == StripDashes(a) + StripDashes(b)
  {
    if a == [] {
      assert a + b == b;
    } else {
      assert (a + b)[1..] == a[1..] + b;
      StripConcat(a[1..], b);
    }
  }

  lemma {:induction false} StripNoDash(s: string)
    ensures NoDash(s) ==> StripDashes(s) == s
    ensures NoDash(StripDashes(s))
  {
    if s == [] {
    } else {
      StripNoDash(s[1..]);
    }
  }

  lemma {:induction false} FormatLength(s: string)
    requires s != []
    ensures |Format(s)| == |s| + (|s| - 1) / 5
    decreases |s|
  {
    if |s| <= 5 {
    } else {
      FormatLength(s[5..]);
    }
  }

  lemma StripGroup(a: string, b: string)
    requires NoDash(a)
    ensures StripDashes(a + "-" + b) == a + StripDashes(b)
  {
    StripConcat(a + "-", b);
    StripConcat(a, "-");
    StripNoDash(a);
    assert StripDashes("-") == [];
  }

  lemma {:induction false} StripFormat(s: string)
    requires NoDash(s)
    ensures StripDashes(Format(s)) == s
    decreases |s|
  {
    if |s| <= 5 {
      StripNoDash(s);
    } else {
      StripFormat(s[5..]);
      StripGroup(s[..5], Format(s[5..]));
      assert s == s[..5] + s[5..];
    }
  }

  lemma {:induction false} StripUpper(s: string)
    ensures StripDashes(Upper(s)) == Upper(StripDashes(s))
  {
    if s == [] {
    } else {
      assert Upper(s)[1..] == Upper(s[1..]);
      StripUpper(s[1..]);
      if s[0] != '-' {
        assert Upper(s) == [UpperChar(s[0])] + Upper(s[1..]);
        assert Upper([s[0]] + StripDashes(s[1..])) == [UpperChar(s[0])] + Upper(StripDashes(s[1..]));
      }
    }
  }

  lemma UpperFixesLetters(s: string)
    requires AllLetters(s)
    ensures Upper(s) == s && NoDash(s)
  {
  }

  lemma UpperIdempotent(s: string)
    ensures Upper(Upper(s)) == Upper(s)
  {
  }

  /** The text of 16 bytes: 26 letters in six dash-separated groups that spell them. */
  lemma TextShape(p: seq<Byte>)
    requires |p| == 16
    ensures var text := Format(Upper(Encode(p)));
            && |text| == 31 && (forall k :: 0 <= k < 31 ==> (text[k] == '-' <==> k % 6 == 5))
            && StripDashes(text) == Encode(p) && AllLetters(Encode(p)) && |Encode(p)| == 26
            && Upper(Encode(p)) == Encode(p) && Decode(Encode(p)) == Some(p)
  {
    DecodeEncode(p);
    UpperFixesLetters(Encode(p));
    FormatShape(Encode(p));
  }

  lemma FormatShape(s: string)
    requires |s| == 26 && NoDash(s)
    ensures |Format(s)| == 31 && StripDashes(Format(s)) == s
    ensures forall k :: 0 <= k < 31 ==> (Format(s)[k] == '-' <==> k % 6 == 5)
  {
    StripFormat(s);
    FormatLength(s);
    FormatDashes(s);
  }

  /** A printed code: 26 letters in six dash-separated groups that spell the payload. */
  lemma CodeTextShape(random: Random, days: Days, distributor: Distributor, secret: seq<Byte>, sign: Signer)
    ensures var text := CodeText(random, days, distributor, secret, sign);
            var p := Payload(random, days, distributor, secret, sign);
            && |text| == 31
            && (forall k :: 0 <= k < 31 ==> (text[k] == '-' <==> k % 6 == 5))
            && AllLetters(StripDashes(text)) && |StripDashes(text)| == 26
            && Upper(StripDashes(text)) == StripDashes(text)
            && Decode(StripDashes(text)) == Some(p)
            && StripDashes(text) == Encode(p)
  {
    TextShape(Payload(random, days, distributor, secret, sign));
  }

  lemma FormatDashes(s: string)
    requires NoDash(s)
    ensures forall k :: 0 <= k < |Format(s)| ==> (Format(s)[k] == '-' <==> k % 6 == 5)
  {
    forall k | 0 <= k < |Format(s)|
      ensures Format(s)[k] == '-' <==> k % 6 == 5
    {
      FormatDash(s, k);
    }
  }

  lemma {:induction false} FormatDash(s: string, k: nat)
    requires NoDash(s) && k < |Format(s)|
    ensures Format(s)[k] == '-' <==> k % 6 == 5
    decreases |s|
  {
    if |s| > 5 && k > 5 {
      FormatDash(s[5..], k - 6);
    }
  }

  /** Reading depends only on the letters: case and dashes carry nothing. */
  lemma SameLetters(a: string, b: string, secret: seq<Byte>, sign: Signer)
    requires Upper(StripDashes(a)) == Upper(StripDashes(b))
    ensures Parse(a, secret, sign) == Parse(b, secret, sign)
    ensures FromStr(a).Ok? <==> FromStr(b).Ok?
    ensures FromStr(a).Ok? ==> Validate(FromStr(a).value, secret, sign) == Validate(b, secret, sign)
  {
    StripUpper(a);
    UpperIdempotent(StripDashes(a));
  }

  /** A code made with one secret is accepted under another exactly if the truncated signatures agree. */
  lemma ForeignSecret(random: Random, days: Days, distributor: Distributor, made: seq<Byte>, secret: seq<Byte>,
                      sign: Signer)
    ensures var data := random + DaysToBytes(days) + distributor;
            Parse(CodeText(random, days, distributor, made, sign), secret, sign).Some? <==>
            sign(data, made)[..3] == sign(data, secret)[..3]
  {
    var data := random + DaysToBytes(days) + distributor;
    var withSig := data + sign(data, made)[..3];
    var p := Payload(random, days, distributor, made, sign);
    CodeTextShape(random, days, distributor, made, sign);
    assert p[..15] == withSig && p[..12] == data && p[12..15] == sign(data, made)[..3];
  }

  /** A fresh code, however it is re-cased or re-dashed, is accepted and yields its days and distributor. */
  lemma CodeRoundTrip(random: Random, days: Days, distributor: Distributor, secret: seq<Byte>, sign: Signer,
                      typed: string)
    requires var letters := StripDashes(CodeText(random, days, distributor, secret, sign));
             && |StripDashes(typed)| == |letters|
             && forall i :: 0 <= i < |letters| ==> SameLetter(StripDashes(typed)[i], letters[i])
    ensures Parse(typed, secret, sign) == Some((days, distributor))
    ensures FromStr(typed).Ok? && Validate(FromStr(typed).value, secret, sign) == Ok((days, distributor))
    ensures Parse(CodeText(random, days, distributor, secret, sign), secret, sign) == Some((days, distributor))
  {
    var text := CodeText(random, days, distributor, secret, sign);
    CodeTextShape(random, days, distributor, secret, sign);
    ReadPayload(random, days, distributor, secret, sign);
    CaseExact(StripDashes(typed), StripDashes(text));
    SameLetters(typed, text, secret, sign);
  }
}
