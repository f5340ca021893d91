/** The few Python string operations the command line relies on:
    str.strip(), str.lower() and the decimal rendering of a positive int. */
module Text {

  /** Python's str.isspace() for one character: the characters whose
      bidirectional class is whitespace, segment or paragraph separator,
      or whose category is Zs. */
  predicate IsSpace(c: char)
  {
    var n := c as int;
    (0x09 <= n <= 0x0D) || (0x1C <= n <= 0x20) || n == 0x85 || n == 0xA0 || n == 0x1680
    || (0x2000 <= n <= 0x200A) || n == 0x2028 || n == 0x2029 || n == 0x202F || n == 0x205F
    || n == 0x3000
  }

  predicate AllSpace(s: string)
  {
    forall i :: 0 <= i < |s| ==> IsSpace(s[i])
  }

  /** Leading whitespace removed. */
  function TrimStart(s: string): (r: string)
    ensures |r| <= |s|
    ensures r == [] || !IsSpace(r[0])
  {
    if s != [] && IsSpace(s[0]) then TrimStart(s[1..]) else s
  }

  /** What TrimStart keeps is a suffix of s, and what it drops is whitespace. */
  lemma {:induction false} TrimStartSplit(s: string)
    ensures var r := TrimStart(s); r == s[|s| - |r|..] && AllSpace(s[..|s| - |r|])
    decreases |s|
  {
    if s != [] && IsSpace(s[0]) {
      TrimStartSplit(s[1..]);
      var r := TrimStart(s);
      assert s[1..][|s| - 1 - |r|..] == s[|s| - |r|..];
      forall k | 0 <= k < |s| - |r| ensures IsSpace(s[k]) {
        if k > 0 { assert s[k] == s[1..][..|s| - 1 - |r|][k - 1]; }
      }
    }
  }

  /** Trailing whitespace removed. */
  function TrimEnd(s: string): (r: string)
    ensures |r| <= |s|
    ensures r == [] || !IsSpace(r[|r| - 1])
  {
    if s != [] && IsSpace(s[|s| - 1]) then TrimEnd(s[..|s| - 1]) else s
  }

  /** What TrimEnd keeps is a prefix of s, and what it drops is whitespace. */
  lemma {:induction false} TrimEndSplit(s: string)
    ensures var r := TrimEnd(s); r == s[..|r|] && AllSpace(s[|r|..])
    decreases |s|
  {
    if s != [] && IsSpace(s[|s| - 1]) {
      var s' := s[..|s| - 1];
      TrimEndSplit(s');
      var r := TrimEnd(s);
      assert s'[..|r|] == s[..|r|];
      forall k | |r| <= k < |s| ensures IsSpace(s[k]) {
        if k < |s| - 1 { assert s[k] == s'[|r|..][k - |r|]; }
      }
    }
  }

  /** Python's str.strip() with no argument: the longest stretch of s that
      neither starts nor ends with whitespace, and empty exactly when s is
      all whitespace. */
  function Trim(s: string): (r: string)
    ensures |r| <= |s|
    ensures r == [] <==> AllSpace(s)
    ensures r != [] ==> !IsSpace(r[0]) && !IsSpace(r[|r| - 1])
  {
    TrimFacts(s);
    TrimEnd(TrimStart(s))
  }

  lemma TrimFacts(s: string)
    ensures var r := TrimEnd(TrimStart(s)); (r == [] <==> AllSpace(s)) && (r != [] ==> !IsSpace(r[0]))
  {
    var t := TrimStart(s);
    var r := TrimEnd(t);
    TrimStartSplit(s);
    TrimEndSplit(t);
    if r != [] {
      assert r[0] == t[0];
    } else {
      assert t[|r|..] == t;
      assert t == [];
      assert s[..|s|] == s;
    }
  }

  /** What strip() removes is whitespace before and after the result, which
      is a contiguous part of s. */
  lemma TrimSpan(s: string)
    ensures Strips(s, |s| - |TrimStart(s)|, Trim(s))
  {
    var t := TrimStart(s);
    TrimStartSplit(s);
    TrimEndSplit(t);
    StripsOfSplits(s, t, TrimEnd(t));
  }

  /** A whitespace prefix dropped from s, then a whitespace suffix dropped
      from the rest, strip s. */
  lemma StripsOfSplits(s: string, t: string, r: string)
    requires |t| <= |s| && t == s[|s| - |t|..] && AllSpace(s[..|s| - |t|])
    requires |r| <= |t| && r == t[..|r|] && AllSpace(t[|r|..])
    ensures Strips(s, |s| - |t|, r)
  {
    var i := |s| - |t|;
    assert r == s[i..i + |r|];
    assert s[i + |r|..] == t[|r|..];
  }

  /** r is s with the whitespace before position i and after r removed. */
  predicate Strips(s: string, i: int, r: string)
  {
    0 <= i <= |s| - |r| && r == s[i..i + |r|] && AllSpace(s[..i]) && AllSpace(s[i + |r|..])
  }

  /** Stripping twice is stripping once, so a stripped command is its own
      stripped form. */
  lemma TrimIdempotent(s: string)
    ensures Trim(Trim(s)) == Trim(s)
  {
    var r := Trim(s);
    assert TrimStart(r) == r;
    assert TrimEnd(r) == r;
  }

  function LowerChar(c: char): char
  {
    if 'A' <= c <= 'Z' then (c as int + 32) as char else c
  }

  function UpperChar(c: char): char
  {
    if 'a' <= c <= 'z' then (c as int - 32) as char else c
  }

  /** Python's str.lower(), for the ASCII letters; every other character is
      kept as it is. */
  function Lower(s: string): (r: string)
  {
    if s == [] then [] else [LowerChar(s[0])] + Lower(s[1..])
  }

  predicate IsLowerWord(w: string)
  {
    forall i :: 0 <= i < |w| ==> 'a' <= w[i] <= 'z'
  }

  /** c is the letter l in lower or upper case. */
  predicate CaseMatch(c: char, l: char)
  {
    c == l || c == UpperChar(l)
  }

  predicate AllCaseMatch(s: string, w: string)
    requires |s| == |w|
  {
    forall i :: 0 <= i < |s| ==> CaseMatch(s[i], w[i])
  }

  /** Comparing the lower-cased form with a lower-case word is a
      case-insensitive comparison: each character matches the word's
      letter or its capital. */
  lemma {:induction false} LowerMatches(s: string, w: string)
    requires IsLowerWord(w)
    ensures Lower(s) == w <==> |s| == |w| && AllCaseMatch(s, w)
  {
    if s == [] || w == [] {
      if s != [] { assert |Lower(s)| > 0; }
    } else {
      LowerMatches(s[1..], w[1..]);
      assert 'a' <= w[0] <= 'z';
      assert Lower(s) == [LowerChar(s[0])] + Lower(s[1..]);
      assert w == [w[0]] + w[1..];
      if |s| == |w| {
        AllCaseMatchCons(s, w);
      }
    }
  }

  lemma AllCaseMatchCons(s: string, w: string)
    requires |s| == |w| > 0
    ensures AllCaseMatch(s, w) <==> CaseMatch(s[0], w[0]) && AllCaseMatch(s[1..], w[1..])
  {
    if CaseMatch(s[0], w[0]) && AllCaseMatch(s[1..], w[1..]) {
      forall i | 0 < i < |s| ensures CaseMatch(s[i], w[i]) {
        assert s[i] == s[1..][i - 1] && w[i] == w[1..][i - 1];
      }
    }
    if AllCaseMatch(s, w) {
      forall i | 0 <= i < |s| - 1 ensures CaseMatch(s[1..][i], w[1..][i]) {
        assert s[1..][i] == s[i + 1] && w[1..][i] == w[i + 1];
      }
    }
  }

  function DigitChar(d: nat): char
    requires d < 10
  {
    ('0' as int + d) as char
  }

  /** Python's f"{n}" for a natural number: its decimal digits, most
      significant first, with no leading zero. */
  function ToDecimal(n: nat): (r: string)
    ensures |r| >= 1
    ensures forall i :: 0 <= i < |r| ==> '0' <= r[i] <= '9'
    ensures r[0] == '0' ==> n == 0
  {
    if n < 10 then [DigitChar(n)] else ToDecimal(n / 10) + [DigitChar(n % 10)]
  }

  /** The value a string of decimal digits denotes. */
  function DecimalValue(s: string): nat
    requires forall i :: 0 <= i < |s| ==> '0' <= s[i] <= '9'
  {
    if s == [] then 0 else DecimalValue(s[..|s| - 1]) * 10 + (s[|s| - 1] as int - '0' as int)
  }

  /** The rendering of a number is read back as that number. */
  lemma {:induction false} DecimalRoundTrip(n: nat)
    ensures DecimalValue(ToDecimal(n)) == n
  {
    if n >= 10 {
      var r := ToDecimal(n);
      assert r[..|r| - 1] == ToDecimal(n / 10);
      DecimalRoundTrip(n / 10);
    }
  }
}
