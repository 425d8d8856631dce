/** Addresses with prefix length as text, "10.0.0.1/24", and back. */
module IpText {
  import opened Options
  import opened Ipv4

  function DigitChar(d: nat): char
    requires d < 10
  {
    ('0' as int + d) as char
  }

  predicate IsDigit(c: char) {
    '0' <= c <= '9'
  }

  predicate AllDigits(s: string) {
    forall i :: 0 <= i < |s| ==> IsDigit(s[i])
  }

  function Dec(n: nat): string {
    if n < 10 then [DigitChar(n)] else Dec(n / 10) + [DigitChar(n % 10)]
  }

  function DecValue(s: string): nat
    requires AllDigits(s)
  {
    if s == [] then 0 else 10 * DecValue(s[..|s| - 1]) + (s[|s| - 1] as int - '0' as int)
  }

  /** One octet: one to three digits, no leading zero, at most 255. */
  function ParseOctet(s: string): Option<U8> {
    if 1 <= |s| <= 3 && AllDigits(s) && (|s| > 1 ==> s[0] != '0') && DecValue(s) < 256 then Some(DecValue(s)) else None
  }

  /** A byte as the standard integer parser reads it: an optional plus sign and any number of digits. */
  function ParseByte(s: string): Option<U8> {
    var d := if |s| > 1 && s[0] == '+' then s[1..] else s;
    if |d| >= 1 && AllDigits(d) && DecValue(d) < 256 then Some(DecValue(d)) else None
  }

  function SplitOnce(s: string, c: char): Option<(string, string)> {
    if s == [] then None
    else if s[0] == c then Some(([], s[1..]))
    else
      match SplitOnce(s[1..], c)
      case None => None
      case Some((l, r)) => Some(([s[0]] + l, r))
  }

  function PrintIp(a: U32): string {
    Dec(a / 0x100_0000) + ("." + (Dec(a / 0x1_0000 % 256) + ("." + (Dec(a / 0x100 % 256) + ("." + Dec(a % 256))))))
  }

  function Octets(a: nat, b: nat, c: nat, d: nat): U32
    requires a < 256 && b < 256 && c < 256 && d < 256
  {
    a * 0x100_0000 + b * 0x1_0000 + c * 0x100 + d
  }

  function ParseIp(s: string): Option<U32> {
    match SplitOnce(s, '.')
    case None => None
    case Some((a, s1)) =>
      match SplitOnce(s1, '.')
      case None => None
      case Some((b, s2)) =>
        match SplitOnce(s2, '.')
        case None => None
        case Some((c, d)) =>
          match (ParseOctet(a), ParseOctet(b), ParseOctet(c), ParseOctet(d))
          case (Some(w), Some(x), Some(y), Some(z)) => Some(Octets(w, x, y, z))
          case _ => None
  }

  function PrintMask(m: IpAddrMask): string {
    PrintIp(m.address) + ("/" + Dec(m.cidr))
  }

  function ParseMask(s: string): Option<IpAddrMask> {
    match SplitOnce(s, '/')
    case Some((left, right)) =>
      (match (ParseIp(left), ParseByte(right))
       case (Some(ip), Some(cidr)) => if cidr > 32 then None else Some(IpAddrMask(ip, cidr))
       case _ => None)
    case None =>
      match ParseIp(s)
      case Some(ip) => Some(IpAddrMask(ip, 32))
      case None => None
  }

  // ----- round trip -----

  lemma {:induction false} DecDigits(n: nat)
    ensures Dec(n) != [] && AllDigits(Dec(n)) && DecValue(Dec(n)) == n
    ensures n >= 10 ==> Dec(n)[0] != '0'
    ensures n > 0 ==> Dec(n)[0] != '0'
  {
    var s := Dec(n);
    if n < 10 {
      assert s[..0] == [];
    } else {
      DecDigits(n / 10);
      assert s[..|s| - 1] == Dec(n / 10);
      assert s[|s| - 1] as int - '0' as int == n % 10;
    }
  }

  lemma DecShort(n: nat)
    requires n < 1000
    ensures |Dec(n)| <= 3
    ensures n >= 10 <==> |Dec(n)| > 1
  {
    assert n >= 10 ==> Dec(n) == Dec(n / 10) + [DigitChar(n % 10)];
    assert n >= 100 ==> Dec(n / 10) == Dec(n / 100) + [DigitChar(n / 10 % 10)] by {
      assert n / 10 / 10 == n / 100;
    }
  }

  lemma OctetRoundTrip(n: nat)
    requires n < 256
    ensures ParseOctet(Dec(n)) == Some(n)
  {
    DecDigits(n);
    DecShort(n);
  }

  lemma ByteRoundTrip(n: nat)
    requires n < 256
    ensures ParseByte(Dec(n)) == Some(n)
  {
    DecDigits(n);
    assert IsDigit(Dec(n)[0]);
  }

  predicate Free(s: string, c: char) {
    forall i :: 0 <= i < |s| ==> s[i] != c
  }

  lemma {:induction false} SplitAtFirst(a: string, c: char, b: string)
    requires Free(a, c)
    ensures SplitOnce(a + ([c] + b), c) == Some((a, b))
  {
    var s := a + ([c] + b);
    if a == [] {
      assert s[1..] == b;
    } else {
      assert s[1..] == a[1..] + ([c] + b);
      SplitAtFirst(a[1..], c, b);
      assert a == [a[0]] + a[1..];
    }
  }

  lemma DecFree(n: nat)
    ensures Free(Dec(n), '.') && Free(Dec(n), '/')
  {
    DecDigits(n);
    forall i | 0 <= i < |Dec(n)|
      ensures Dec(n)[i] != '.' && Dec(n)[i] != '/'
    {
      assert IsDigit(Dec(n)[i]);
    }
  }

  lemma OctetsOf(a: U32)
    ensures a / 0x100_0000 < 256
    ensures Octets(a / 0x100_0000, a / 0x1_0000 % 256, a / 0x100 % 256, a % 256) == a
  {
    assert a / 0x100 == a / 0x1_0000 * 256 + a / 0x100 % 256;
    assert a / 0x1_0000 == a / 0x100_0000 * 256 + a / 0x1_0000 % 256;
  }

  lemma IpRoundTrip(a: U32)
    ensures ParseIp(PrintIp(a)) == Some(a)
  {
    OctetsOf(a);
    var w, x, y, z := a / 0x100_0000, a / 0x1_0000 % 256, a / 0x100 % 256, a % 256;
    DecFree(w);
    DecFree(x);
    DecFree(y);
    SplitAtFirst(Dec(w), '.', Dec(x) + ("." + (Dec(y) + ("." + Dec(z)))));
    SplitAtFirst(Dec(x), '.', Dec(y) + ("." + Dec(z)));
    SplitAtFirst(Dec(y), '.', Dec(z));
    OctetRoundTrip(w);
    OctetRoundTrip(x);
    OctetRoundTrip(y);
    OctetRoundTrip(z);
  }

  lemma FreeConcat(a: string, b: string, c: char)
    ensures Free(a + b, c) <==> Free(a, c) && Free(b, c)
  {
    if Free(a + b, c) {
      forall i | 0 <= i < |a|
        ensures a[i] != c
      {
        assert (a + b)[i] == a[i];
      }
      forall i | 0 <= i < |b|
        ensures b[i] != c
      {
        assert (a + b)[|a| + i] == b[i];
      }
    }
  }

  lemma IpFree(a: U32)
    ensures Free(PrintIp(a), '/')
  {
    OctetsOf(a);
    var w, x, y, z := Dec(a / 0x100_0000), Dec(a / 0x1_0000 % 256), Dec(a / 0x100 % 256), Dec(a % 256);
    DecFree(a / 0x100_0000);
    DecFree(a / 0x1_0000 % 256);
    DecFree(a / 0x100 % 256);
    DecFree(a % 256);
    FreeConcat(".", z, '/');
    FreeConcat(y, "." + z, '/');
    FreeConcat(".", y + ("." + z), '/');
    FreeConcat(x, "." + (y + ("." + z)), '/');
    FreeConcat(".", x + ("." + (y + ("." + z))), '/');
    FreeConcat(w, "." + (x + ("." + (y + ("." + z)))), '/');
  }

  /** Text and back is the identity exactly for the prefix lengths that the parser admits. */
  lemma MaskRoundTrip(m: IpAddrMask)
    ensures ParseMask(PrintMask(m)) == if m.cidr <= 32 then Some(m) else None
  {
    IpRoundTrip(m.address);
    ByteRoundTrip(m.cidr);
    IpFree(m.address);
    SplitAtFirst(PrintIp(m.address), '/', Dec(m.cidr));
  }
  // ----- exactly which texts are accepted -----

  lemma {:induction false} CanonicalDigits(s: string)
    requires s != [] && AllDigits(s) && (|s| > 1 ==> s[0] != '0')
    ensures Dec(DecValue(s)) == s
    ensures |s| > 1 ==> DecValue(s) >= 10
  {
    var t, d := s[..|s| - 1], s[|s| - 1] as int - '0' as int;
    assert s == t + [DigitChar(d)];
    if t == [] {
      assert DecValue(t) == 0;
    } else {
      CanonicalDigits(t);
      if |t| == 1 {
        assert DecValue(t[..0]) == 0 && DecValue(t) > 0;
      }
    }
  }

  /** The address parser takes one spelling of each octet, without leading zeros. */
  lemma OctetExact(s: string, n: U8)
    ensures ParseOctet(s) == Some(n) <==> s == Dec(n)
  {
    if ParseOctet(s) == Some(n) {
      CanonicalDigits(s);
    }
    OctetRoundTrip(n);
  }

  lemma {:induction false} SplitExact(s: string, c: char)
    ensures SplitOnce(s, c).None? <==> Free(s, c)
    ensures SplitOnce(s, c).Some? ==>
              var (l, r) := SplitOnce(s, c).value; s == l + ([c] + r) && Free(l, c)
  {
    if s == [] {
    } else {
      SplitExact(s[1..], c);
      FreeConcat([s[0]], s[1..], c);
      assert s == [s[0]] + s[1..];
      if s[0] != c && SplitOnce(s[1..], c).Some? {
        var (l, r) := SplitOnce(s[1..], c).value;
        FreeConcat([s[0]], l, c);
        assert [s[0]] + (l + ([c] + r)) == ([s[0]] + l) + ([c] + r);
      }
    }
  }

  lemma OctetsParts(w: U8, x: U8, y: U8, z: U8)
    ensures var a := Octets(w, x, y, z);
            a / 0x100_0000 == w && a / 0x1_0000 % 256 == x && a / 0x100 % 256 == y && a % 256 == z
  {
    var a := Octets(w, x, y, z);
    assert a / 0x100 == w * 0x1_0000 + x * 0x100 + y;
    assert a / 0x1_0000 == w * 0x100 + x;
  }

  /** Printing is the only spelling of an address. */
  lemma IpExact(s: string, a: U32)
    ensures ParseIp(s) == Some(a) <==> s == PrintIp(a)
  {
    IpRoundTrip(a);
    if ParseIp(s) == Some(a) {
      SplitExact(s, '.');
      var (p, s1) := SplitOnce(s, '.').value;
      SplitExact(s1, '.');
      var (q, s2) := SplitOnce(s1, '.').value;
      SplitExact(s2, '.');
      var (u, v) := SplitOnce(s2, '.').value;
      var w, x, y, z := ParseOctet(p).value, ParseOctet(q).value, ParseOctet(u).value, ParseOctet(v).value;
      OctetsParts(w, x, y, z);
      OctetExact(p, w);
      OctetExact(q, x);
      OctetExact(u, y);
      OctetExact(v, z);
    }
  }

  function ZeroText(k: nat): (s: string)
    ensures |s| == k && AllDigits(s)
  {
    seq(k, _ => '0')
  }

  lemma {:induction false} LeadingZeros(k: nat, s: string)
    requires AllDigits(s)
    ensures AllDigits(ZeroText(k) + s) && DecValue(ZeroText(k) + s) == DecValue(s)
    decreases |s|, k
  {
    var t := ZeroText(k) + s;
    if s == [] {
      if k > 0 {
        assert t[..|t| - 1] == ZeroText(k - 1) + s;
        LeadingZeros(k - 1, s);
      }
    } else {
      assert t[..|t| - 1] == ZeroText(k) + s[..|s| - 1];
      LeadingZeros(k, s[..|s| - 1]);
    }
  }

  lemma {:induction false} StripZeros(s: string) returns (k: nat)
    requires s != [] && AllDigits(s)
    ensures s == ZeroText(k) + Dec(DecValue(s))
    decreases |s|
  {
    if |s| > 1 && s[0] == '0' {
      var j := StripZeros(s[1..]);
      assert s == ZeroText(1) + s[1..];
      LeadingZeros(1, s[1..]);
      k := j + 1;
      assert s == ZeroText(1) + (ZeroText(j) + Dec(DecValue(s[1..])));
    } else {
      CanonicalDigits(s);
      k := 0;
    }
  }

  /** The integer parser takes any number of leading zeros, and a plus sign before them. */
  lemma ByteExact(s: string, n: U8)
    ensures ParseByte(s) == Some(n) <==>
            exists k: nat :: s == ZeroText(k) + Dec(n) || s == "+" + (ZeroText(k) + Dec(n))
  {
    var d := if |s| > 1 && s[0] == '+' then s[1..] else s;
    DecDigits(n);
    if ParseByte(s) == Some(n) {
      var k := StripZeros(d);
      if |s| > 1 && s[0] == '+' {
        assert s == "+" + s[1..];
      }
      assert s == ZeroText(k) + Dec(n) || s == "+" + (ZeroText(k) + Dec(n));
    }
    if k: nat :| s == ZeroText(k) + Dec(n) || s == "+" + (ZeroText(k) + Dec(n)) {
      LeadingZeros(k, Dec(n));
      if s == ZeroText(k) + Dec(n) {
        assert IsDigit((ZeroText(k) + Dec(n))[0]);
      }
      assert d == ZeroText(k) + Dec(n);
    }
  }

  /** A text is read as this address and prefix length exactly if it is the printed address alone, for 32, or that with
      a slash and a spelling of the length, which is at most 32. */
  lemma MaskExact(s: string, m: IpAddrMask)
    ensures ParseMask(s) == Some(m) <==>
            || (s == PrintIp(m.address) && m.cidr == 32)
            || (m.cidr <= 32
                && exists t :: s == PrintIp(m.address) + ("/" + t) && ParseByte(t) == Some(m.cidr))
  {
    SplitExact(s, '/');
    IpFree(m.address);
    if SplitOnce(s, '/').Some? {
      var (l, t) := SplitOnce(s, '/').value;
      IpExact(l, m.address);
    } else {
      IpExact(s, m.address);
    }
    forall t | s == PrintIp(m.address) + ("/" + t)
      ensures SplitOnce(s, '/') == Some((PrintIp(m.address), t))
    {
      SplitAtFirst(PrintIp(m.address), '/', t);
    }
    IpRoundTrip(m.address);
  }
}
