/** Optional values, standing for the source's Option and for the success side of its Result. */
module Options {
  datatype Option<+T> = None | Some(value: T)
}

/** ASCII text: case mapping and prefixes, as far as the topic, environment and code texts need them. */
module Text {
  function LowerChar(c: char): char {
    if 'A' <= c <= 'Z' then (c as int + 32) as char else c
  }

  function UpperChar(c: char): char {
    if 'a' <= c <= 'z' then (c as int - 32) as char else c
  }

  function Lower(s: string): (r: string)
    ensures |r| == |s|
  {
    seq(|s|, i requires 0 <= i < |s| => LowerChar(s[i]))
  }

  function Upper(s: string): (r: string)
    ensures |r| == |s|
  {
    seq(|s|, i requires 0 <= i < |s| => UpperChar(s[i]))
  }

  predicate IsLower(s: string) {
    forall i :: 0 <= i < |s| ==> LowerChar(s[i]) == s[i]
  }

  lemma LowerFixesLower(s: string)
    ensures Lower(s) == s <==> IsLower(s)
  {
    if Lower(s) == s {
      forall i | 0 <= i < |s|
        ensures LowerChar(s[i]) == s[i]
      {
        assert Lower(s)[i] == LowerChar(s[i]);
      }
    }
  }

  /** The same character, or the same letter in the other case. */
  predicate SameLetter(c: char, d: char) {
    || c == d
    || ('A' <= c <= 'Z' && d as int - c as int == 'a' as int - 'A' as int)
    || ('A' <= d <= 'Z' && c as int - d as int == 'a' as int - 'A' as int)
  }

  /** Texts have the same upper and lower case forms exactly if one is a re-casing of the other. */
  lemma CaseExact(s: string, t: string)
    ensures Upper(s) == Upper(t) <==> |s| == |t| && forall i :: 0 <= i < |s| ==> SameLetter(s[i], t[i])
    ensures Lower(s) == Lower(t) <==> |s| == |t| && forall i :: 0 <= i < |s| ==> SameLetter(s[i], t[i])
  {
    if Upper(s) == Upper(t) || Lower(s) == Lower(t) {
      forall i | 0 <= i < |s|
        ensures |s| == |t| && SameLetter(s[i], t[i])
      {
        assert |s| == |Upper(s)| == |t|;
        assert Upper(s)[i] == Upper(t)[i] || Lower(s)[i] == Lower(t)[i];
      }
    }
  }

  lemma LowerConcat(a: string, b: string)
    ensures Lower(a + b) == Lower(a) + Lower(b)
    ensures IsLower(a + b) <==> IsLower(a) && IsLower(b)
  {
    forall i | 0 <= i < |b|
      ensures (a + b)[|a| + i] == b[i]
    {
    }
    LowerFixesLower(a);
    LowerFixesLower(b);
    if IsLower(a + b) {
      forall i | 0 <= i < |a|
        ensures LowerChar(a[i]) == a[i]
      {
        assert (a + b)[i] == a[i];
      }
      forall i | 0 <= i < |b|
        ensures LowerChar(b[i]) == b[i]
      {
        assert (a + b)[|a| + i] == b[i];
      }
    }
  }

  lemma LowerIdempotent(s: string)
    ensures IsLower(Lower(s)) && Lower(Lower(s)) == Lower(s)
  {
  }
}
