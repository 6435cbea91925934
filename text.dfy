/** String helpers the handlers rely on: `str.lower()`, `str.endswith()` and
    the decimal rendering of an integer inside an f-string. */
module Text {

  /** Lower-cases an ASCII upper-case letter; every other character is kept. */
  function LowerChar(c: char): char
  {
    if 'A' <= c <= 'Z' then (c as int - 'A' as int + 'a' as int) as char else c
  }

  /** `s.lower()`, character by character. */
  function Lower(s: string): (r: string)
    ensures |r| == |s|
    ensures forall i :: 0 <= i < |s| ==> r[i] == LowerChar(s[i])
  {
    seq(|s|, i requires 0 <= i < |s| => LowerChar(s[i]))
  }

  /** Upper-cases an ASCII lower-case letter; every other character is kept. */
  function UpperChar(c: char): char
  {
    if 'a' <= c <= 'z' then (c as int - 'a' as int + 'A' as int) as char else c
  }

  predicate IsLetter(c: char)
  {
    'a' <= c <= 'z' || 'A' <= c <= 'Z'
  }

  /** `s.title()`: a letter that follows a letter is lower-cased, every other
      character is upper-cased. */
  function TitleCase(s: string): (r: string)
    ensures |r| == |s|
    ensures forall i :: 0 <= i < |s| ==>
      r[i] == if i > 0 && IsLetter(s[i - 1]) then LowerChar(s[i]) else UpperChar(s[i])
  {
    seq(|s|, i requires 0 <= i < |s| => if i > 0 && IsLetter(s[i - 1]) then LowerChar(s[i]) else UpperChar(s[i]))
  }

  /** Two characters equal up to ASCII case agree on everything that does
      not look at case. */
  lemma SameLetterIgnoringCase(a: char, b: char)
    requires LowerChar(a) == LowerChar(b)
    ensures UpperChar(a) == UpperChar(b) && IsLetter(a) == IsLetter(b)
  {
    if 'A' <= a <= 'Z' || 'a' <= a <= 'z' {
      assert 'A' <= b <= 'Z' || 'a' <= b <= 'z';
    }
  }

  /** `s.title()` depends only on `s.lower()`: any spelling of a word
      title-cases to the same string. */
  lemma TitleCaseIgnoresCase(s: string, t: string)
    requires Lower(s) == Lower(t)
    ensures TitleCase(s) == TitleCase(t)
  {
    assert |s| == |t|;
    forall i | 0 <= i < |s| ensures TitleCase(s)[i] == TitleCase(t)[i] {
      assert Lower(s)[i] == Lower(t)[i];
      SameLetterIgnoringCase(s[i], t[i]);
      if i > 0 {
        assert Lower(s)[i - 1] == Lower(t)[i - 1];
        SameLetterIgnoringCase(s[i - 1], t[i - 1]);
      }
    }
  }

  /** Changing the case of a character keeps its lower-cased form. */
  lemma CaseChangeKeepsLower(c: char)
    ensures LowerChar(UpperChar(c)) == LowerChar(c) && LowerChar(LowerChar(c)) == LowerChar(c)
  {
  }

  /** Title-casing keeps a string's lower-cased form. */
  lemma LowerTitleCase(s: string)
    ensures Lower(TitleCase(s)) == Lower(s)
  {
    var t := TitleCase(s);
    forall i | 0 <= i < |s| ensures Lower(t)[i] == Lower(s)[i] {
      CaseChangeKeepsLower(s[i]);
    }
  }

  /** Every spelling of `host` title-cases to `Host`, and no other name does. */
  lemma TitleCaseHost(s: string)
    ensures TitleCase(s) == "Host" <==> Lower(s) == "host"
  {
    assert Lower("host") == "host";
    assert TitleCase("host") == "Host" by {
      var r := TitleCase("host");
      assert r[0] == 'H' && r[1] == 'o' && r[2] == 's' && r[3] == 't';
    }
    if Lower(s) == "host" {
      TitleCaseIgnoresCase(s, "host");
    }
    if TitleCase(s) == "Host" {
      LowerTitleCase(s);
      assert Lower("Host") == "host" by {
        var r := Lower("Host");
        assert r[0] == 'h' && r[1] == 'o' && r[2] == 's' && r[3] == 't';
      }
    }
  }

  /** `s.endswith(suffix)`. */
  predicate EndsWith(s: string, suffix: string)
  {
    |suffix| <= |s| && s[|s| - |suffix|..] == suffix
  }

  function DigitChar(d: nat): (c: char)
    requires d < 10
  {
    ('0' as int + d) as char
  }

  predicate IsDigit(c: char)
  {
    '0' <= c <= '9'
  }

  /** `str(n)` for a non-negative integer: its decimal digits, most
      significant first, with no leading zero. */
  function NatToString(n: nat): (r: string)
    decreases n
  {
    if n < 10 then [DigitChar(n)] else NatToString(n / 10) + [DigitChar(n % 10)]
  }

  /** The value of a string of decimal digits. */
  function DigitsValue(s: string): nat
    requires forall i :: 0 <= i < |s| ==> IsDigit(s[i])
  {
    if s == [] then 0
    else
      var last := s[|s| - 1];
      assert IsDigit(last);
      DigitsValue(s[..|s| - 1]) * 10 + (last as int - '0' as int)
  }

  /** The decimal rendering is a non-empty string of digits that reads back
      as the number it came from. */
  lemma {:induction false} NatToStringRoundTrip(n: nat)
    ensures NatToString(n) != []
    ensures forall i :: 0 <= i < |NatToString(n)| ==> IsDigit(NatToString(n)[i])
    ensures DigitsValue(NatToString(n)) == n
    decreases n
  {
    if n >= 10 {
      var q, d := n / 10, n % 10;
      NatToStringRoundTrip(q);
      var p, s := NatToString(q), NatToString(n);
      assert s == p + [DigitChar(d)];
      assert s[..|s| - 1] == p;
      assert DigitsValue(s) == DigitsValue(p) * 10 + d;
      assert q * 10 + d == n;
    }
  }

  /** Distinct numbers render as distinct strings. */
  lemma NatToStringInjective(i: nat, j: nat)
    ensures NatToString(i) == NatToString(j) ==> i == j
  {
    NatToStringRoundTrip(i);
    NatToStringRoundTrip(j);
  }
}
