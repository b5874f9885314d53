/** Text primitives the source takes from JavaScript's String API:
    case mapping, `includes`, `trim`, `split`/`join`, `padStart`,
    decimal rendering of numbers and `parseInt(s, 10)`. */
module Strings {
  import opened Base

  // ---------------------------------------------------------------------
  // Case mapping (`toLowerCase` / `toUpperCase`)
  // ---------------------------------------------------------------------

  /** Lower-case mapping of one character: ASCII letters and the basic
      Cyrillic block; every other character is its own lower case. */
  function LowerChar(c: char): char {
    if 'A' <= c <= 'Z' then (c as int + 32) as char
    else if '\U{0410}' <= c <= '\U{042F}' then (c as int + 32) as char
    else if '\U{0400}' <= c <= '\U{040F}' then (c as int + 80) as char
    else c
  }

  /** Upper-case mapping of one character, the inverse table of LowerChar. */
  function UpperChar(c: char): char {
    if 'a' <= c <= 'z' then (c as int - 32) as char
    else if '\U{0430}' <= c <= '\U{044F}' then (c as int - 32) as char
    else if '\U{0450}' <= c <= '\U{045F}' then (c as int - 80) as char
    else c
  }

  function Lower(s: string): (r: string)
    ensures |r| == |s|
    ensures forall i :: 0 <= i < |s| ==> r[i] == LowerChar(s[i])
  {
    seq(|s|, i requires 0 <= i < |s| => LowerChar(s[i]))
  }

  function Upper(s: string): (r: string)
    ensures |r| == |s|
    ensures forall i :: 0 <= i < |s| ==> r[i] == UpperChar(s[i])
  {
    seq(|s|, i requires 0 <= i < |s| => UpperChar(s[i]))
  }

  lemma LowerIdempotent(s: string)
    ensures Lower(Lower(s)) == Lower(s)
  {
  }

  // ---------------------------------------------------------------------
  // Substrings (`startsWith`, `endsWith`, `includes`)
  // ---------------------------------------------------------------------

  predicate StartsWith(s: string, p: string) {
    |p| <= |s| && s[..|p|] == p
  }

  predicate EndsWith(s: string, p: string) {
    |p| <= |s| && s[|s| - |p|..] == p
  }

  /** `sub` occurs in `s` starting at position `i`. */
  predicate MatchesAt(s: string, sub: string, i: int) {
    0 <= i <= |s| - |sub| && s[i..i + |sub|] == sub
  }

  /** `s.includes(sub)`: `sub` occurs at some position of `s`. */
  predicate Contains(s: string, sub: string) {
    exists i :: 0 <= i <= |s| - |sub| && MatchesAt(s, sub, i)
  }

  /** A string that does not hold a character cannot contain a text that does. */
  lemma ContainsCharOf(s: string, sub: string, k: nat)
    requires Contains(s, sub)
    requires k < |sub|
    ensures sub[k] in s
  {
    var i :| 0 <= i <= |s| - |sub| && MatchesAt(s, sub, i);
    assert s[i..i + |sub|][k] == s[i + k];
  }

  /** The contrapositive: one character of `sub` missing from `s` rules the
      occurrence out. */
  lemma NotContains(s: string, sub: string, k: nat)
    requires k < |sub| && sub[k] !in s
    ensures !Contains(s, sub)
  {
    if Contains(s, sub) {
      ContainsCharOf(s, sub, k);
    }
  }

  lemma ContainsSelf(s: string)
    ensures Contains(s, s)
  {
    assert MatchesAt(s, s, 0);
  }

  lemma Associative(a: string, b: string, c: string)
    ensures a + (b + c) == a + b + c
  {
  }

  lemma SplitAt(s: string, k: nat)
    requires k <= |s|
    ensures s[..k] + s[k..] == s
  {
  }

  // ---------------------------------------------------------------------
  // Whitespace and `trim`
  // ---------------------------------------------------------------------

  /** The ECMAScript WhiteSpace and LineTerminator characters, which both
      `String.prototype.trim` and the regular-expression class `\s` use. */
  predicate IsWhitespace(c: char) {
    c == ' ' || c == '\t' || c == '\n' || c == '\r' || c == '\U{000B}' || c == '\U{000C}'
    || c == '\U{00A0}' || c == '\U{1680}' || ('\U{2000}' <= c <= '\U{200A}')
    || c == '\U{2028}' || c == '\U{2029}' || c == '\U{202F}' || c == '\U{205F}'
    || c == '\U{3000}' || c == '\U{FEFF}'
  }

  predicate AllWhitespace(s: string) {
    forall i :: 0 <= i < |s| ==> IsWhitespace(s[i])
  }

  function TrimStart(s: string): (r: string)
    ensures |r| <= |s| && r == s[|s| - |r|..]
    ensures AllWhitespace(s[..|s| - |r|])
    ensures r != [] ==> !IsWhitespace(r[0])
  {
    if s != [] && IsWhitespace(s[0]) then
      var r := TrimStart(s[1..]);
      TrimStartStep(s, r);
      r
    else
      assert s[..0] == [];
      s
  }

  /** A leading whitespace character joins the blank run before `r`. */
  lemma TrimStartStep(s: string, r: string)
    requires s != [] && IsWhitespace(s[0])
    requires |r| <= |s| - 1 && r == s[1..][|s| - 1 - |r|..]
    requires AllWhitespace(s[1..][..|s| - 1 - |r|])
    ensures r == s[|s| - |r|..]
    ensures AllWhitespace(s[..|s| - |r|])
  {
    assert s[1..][|s| - 1 - |r|..] == s[|s| - |r|..];
    var blank := s[..|s| - |r|];
    var later := s[1..][..|s| - 1 - |r|];
    forall i | 0 <= i < |blank|
      ensures IsWhitespace(blank[i])
    {
      if i > 0 {
        assert blank[i] == later[i - 1];
      }
    }
  }

  function TrimEnd(s: string): (r: string)
    ensures |r| <= |s| && r == s[..|r|]
    ensures AllWhitespace(s[|r|..])
    ensures r != [] ==> !IsWhitespace(r[|r| - 1])
  {
    if s != [] && IsWhitespace(s[|s| - 1]) then
      var r := TrimEnd(s[..|s| - 1]);
      TrimEndStep(s, r);
      r
    else
      assert s[|s|..] == [];
      s
  }

  /** A trailing whitespace character joins the blank run after `r`. */
  lemma TrimEndStep(s: string, r: string)
    requires s != [] && IsWhitespace(s[|s| - 1])
    requires |r| <= |s| - 1 && r == s[..|s| - 1][..|r|]
    requires AllWhitespace(s[..|s| - 1][|r|..])
    ensures r == s[..|r|]
    ensures AllWhitespace(s[|r|..])
  {
    assert s[..|s| - 1][..|r|] == s[..|r|];
    var blank := s[|r|..];
    var earlier := s[..|s| - 1][|r|..];
    forall i | 0 <= i < |blank|
      ensures IsWhitespace(blank[i])
    {
      if i < |blank| - 1 {
        assert blank[i] == earlier[i];
      }
    }
  }

  /** `s.trim()`: `s` without whitespace at either end; it neither starts
      nor ends with whitespace, and it is empty exactly when `s` is blank. */
  function Trim(s: string): (r: string)
    ensures |r| <= |s|
    ensures r != [] ==> !IsWhitespace(r[0]) && !IsWhitespace(r[|r| - 1])
    ensures r == [] <==> AllWhitespace(s)
  {
    var t := TrimStart(s);
    var r := TrimEnd(t);
    TrimParts(s, t, r);
    r
  }

  lemma TrimParts(s: string, t: string, r: string)
    requires t == TrimStart(s) && r == TrimEnd(t)
    ensures r != [] ==> !IsWhitespace(r[0])
    ensures r == [] <==> AllWhitespace(s)
  {
    if r == [] {
      assert t == t[|r|..];
      assert t == [];
      assert s[..|s| - |t|] == s;
    } else {
      assert r[0] == t[0];
      assert t[0] == s[|s| - |t|];
    }
  }

  /** A text with no whitespace at either end is its own trim. */
  lemma TrimOfTrimmed(s: string)
    requires s != [] ==> !IsWhitespace(s[0]) && !IsWhitespace(s[|s| - 1])
    ensures Trim(s) == s
  {
  }

  lemma TrimIdempotent(s: string)
    ensures Trim(Trim(s)) == Trim(s)
  {
    TrimOfTrimmed(Trim(s));
  }

  /** `s.replace(/\s+/g, '')`: every whitespace character removed. */
  function RemoveWhitespace(s: string): (r: string)
    ensures forall i :: 0 <= i < |r| ==> !IsWhitespace(r[i])
  {
    if s == [] then []
    else if IsWhitespace(s[0]) then RemoveWhitespace(s[1..])
    else [s[0]] + RemoveWhitespace(s[1..])
  }

  /** Exactly the characters of `s` that are not whitespace remain. */
  lemma {:induction false} RemoveWhitespaceMembers(s: string)
    ensures forall c :: c in RemoveWhitespace(s) <==> c in s && !IsWhitespace(c)
    decreases |s|
  {
    if s != [] {
      RemoveWhitespaceMembers(s[1..]);
      assert forall c :: c in s <==> c == s[0] || c in s[1..];
    }
  }

  lemma {:induction false} RemoveWhitespaceConcat(a: string, b: string)
    ensures RemoveWhitespace(a + b) == RemoveWhitespace(a) + RemoveWhitespace(b)
    decreases |a|
  {
    if a != [] {
      var ab := a + b;
      assert ab[0] == a[0];
      assert ab[1..] == a[1..] + b;
      RemoveWhitespaceConcat(a[1..], b);
      var x := RemoveWhitespace(a[1..]);
      var y := RemoveWhitespace(b);
      if IsWhitespace(a[0]) {
        calc {
          RemoveWhitespace(ab);
          RemoveWhitespace(a[1..] + b);
          x + y;
        }
      } else {
        calc {
          RemoveWhitespace(ab);
          [a[0]] + RemoveWhitespace(a[1..] + b);
          [a[0]] + (x + y);
          { Associative([a[0]], x, y); }
          [a[0]] + x + y;
        }
      }
    } else {
      assert a + b == b;
    }
  }

  lemma {:induction false} RemoveWhitespaceOfBlank(s: string)
    requires AllWhitespace(s)
    ensures RemoveWhitespace(s) == []
    decreases |s|
  {
    if s != [] {
      RemoveWhitespaceOfBlank(s[1..]);
    }
  }

  /** Trimming first and then removing all whitespace is removing it all. */
  lemma RemoveWhitespaceTrim(s: string)
    ensures RemoveWhitespace(Trim(s)) == RemoveWhitespace(s)
  {
    var t := TrimStart(s);
    var r := TrimEnd(t);
    assert Trim(s) == r;
    BlankPrefixRemoved(s, |s| - |t|);
    BlankSuffixRemoved(t, |r|);
  }

  lemma BlankPrefixRemoved(s: string, k: nat)
    requires k <= |s| && AllWhitespace(s[..k])
    ensures RemoveWhitespace(s) == RemoveWhitespace(s[k..])
  {
    SplitAt(s, k);
    RemoveWhitespaceConcat(s[..k], s[k..]);
    RemoveWhitespaceOfBlank(s[..k]);
  }

  lemma BlankSuffixRemoved(s: string, k: nat)
    requires k <= |s| && AllWhitespace(s[k..])
    ensures RemoveWhitespace(s) == RemoveWhitespace(s[..k])
  {
    SplitAt(s, k);
    RemoveWhitespaceConcat(s[..k], s[k..]);
    RemoveWhitespaceOfBlank(s[k..]);
    assert RemoveWhitespace(s[..k]) + [] == RemoveWhitespace(s[..k]);
  }

  // ---------------------------------------------------------------------
  // `split` and `join` on a single-character separator
  // ---------------------------------------------------------------------

  /** Position of the first `c` in `s`, or |s| when there is none. */
  function IndexOf(s: string, c: char): (k: nat)
    ensures k <= |s|
    ensures k < |s| ==> s[k] == c
    ensures c !in s[..k]
  {
    if s == [] then 0
    else if s[0] == c then 0
    else 1 + IndexOf(s[1..], c)
  }

  /** `s.split(c)`: the maximal `c`-free pieces between occurrences of `c`;
      there is always at least one piece. */
  function Split(s: string, c: char): (parts: seq<string>)
    ensures |parts| >= 1
    ensures forall k :: 0 <= k < |parts| ==> c !in parts[k]
    ensures c !in s ==> parts == [s]
    decreases |s|
  {
    var k := IndexOf(s, c);
    if k == |s| then [s] else [s[..k]] + Split(s[k + 1..], c)
  }

  /** `parts.join(c)`. */
  function Join(parts: seq<string>, c: char): (s: string)
    decreases |parts|
  {
    if parts == [] then ""
    else if |parts| == 1 then parts[0]
    else parts[0] + [c] + Join(parts[1..], c)
  }

  /** Splitting a join of separator-free pieces gives the pieces back. */
  lemma {:induction false} SplitJoin(parts: seq<string>, c: char)
    requires |parts| >= 1
    requires forall k :: 0 <= k < |parts| ==> c !in parts[k]
    ensures Split(Join(parts, c), c) == parts
    decreases |parts|
  {
    var s := Join(parts, c);
    if |parts| == 1 {
    } else {
      var rest := Join(parts[1..], c);
      assert s == parts[0] + [c] + rest;
      IndexOfAfterFree(parts[0], c, rest);
      assert s[..|parts[0]|] == parts[0];
      assert s[|parts[0]| + 1..] == rest;
      SplitJoin(parts[1..], c);
    }
  }

  lemma IndexOfAfterFree(a: string, c: char, b: string)
    requires c !in a
    ensures IndexOf(a + [c] + b, c) == |a|
    decreases |a|
  {
    if a != [] {
      assert (a + [c] + b)[1..] == a[1..] + [c] + b;
      IndexOfAfterFree(a[1..], c, b);
    }
  }

  /** The three-piece case spelled out. */
  lemma Split3(a: string, b: string, d: string, c: char)
    requires c !in a && c !in b && c !in d
    ensures Split(a + [c] + b + [c] + d, c) == [a, b, d]
  {
    assert Join([a, b, d], c) == a + [c] + b + [c] + d by {
      assert Join([a, b, d][1..], c) == b + [c] + d;
    }
    SplitJoin([a, b, d], c);
  }

  // ---------------------------------------------------------------------
  // `padStart(2, '0')`
  // ---------------------------------------------------------------------

  function PadStart2(s: string): (r: string)
    ensures |s| >= 2 ==> r == s
    ensures |s| < 2 ==> |r| == 2 && r == Repeat('0', 2 - |s|) + s
  {
    if |s| >= 2 then s else Repeat('0', 2 - |s|) + s
  }

  function Repeat(c: char, n: nat): (r: string)
    ensures |r| == n
    ensures forall i :: 0 <= i < n ==> r[i] == c
  {
    if n == 0 then "" else [c] + Repeat(c, n - 1)
  }

  // ---------------------------------------------------------------------
  // Decimal digits: rendering numbers and `parseInt(s, 10)`
  // ---------------------------------------------------------------------

  predicate IsDigit(c: char) {
    '0' <= c <= '9'
  }

  predicate AllDigits(s: string) {
    forall i :: 0 <= i < |s| ==> IsDigit(s[i])
  }

  function DigitChar(d: nat): (c: char)
    requires d < 10
    ensures IsDigit(c)
  {
    ('0' as int + d) as char
  }

  /** Value of a string of decimal digits, most significant first. */
  function DigitsValue(s: string): (v: nat)
    requires AllDigits(s)
  {
    if s == [] then 0
    else DigitsValue(s[..|s| - 1]) * 10 + (s[|s| - 1] as int - '0' as int)
  }

  /** `String(n)` for a non-negative integer: no leading zeros, "0" for 0. */
  function NatToString(n: nat): (s: string)
    ensures |s| >= 1 && AllDigits(s)
    ensures |s| > 1 ==> s[0] != '0'
  {
    if n < 10 then [DigitChar(n)] else NatToString(n / 10) + [DigitChar(n % 10)]
  }

  /** `String(n)` for any integer. */
  function IntToString(n: int): (s: string)
    ensures |s| >= 1
    ensures n >= 0 ==> s == NatToString(n)
    ensures n < 0 ==> s == "-" + NatToString(-n)
  {
    if n >= 0 then NatToString(n) else "-" + NatToString(-n)
  }

  lemma {:induction false} NatToStringValue(n: nat)
    ensures DigitsValue(NatToString(n)) == n
  {
    if n >= 10 {
      var s := NatToString(n);
      assert s[..|s| - 1] == NatToString(n / 10);
      NatToStringValue(n / 10);
    }
  }

  /** Number of leading decimal digits of `s`. */
  function DigitPrefixLength(s: string): (k: nat)
    ensures k <= |s|
    ensures AllDigits(s[..k])
    ensures k < |s| ==> !IsDigit(s[k])
  {
    if s != [] && IsDigit(s[0]) then 1 + DigitPrefixLength(s[1..]) else 0
  }

  lemma DigitPrefixOfDigits(s: string, rest: string)
    requires AllDigits(s)
    requires rest == [] || !IsDigit(rest[0])
    ensures DigitPrefixLength(s + rest) == |s|
    decreases |s|
  {
    if s != [] {
      assert (s + rest)[1..] == s[1..] + rest;
      DigitPrefixOfDigits(s[1..], rest);
    }
  }

  /** `parseInt(s, 10)`: leading whitespace skipped, an optional sign, then
      the longest run of decimal digits; no digit at all is NaN (None). */
  function ParseInt(s: string): (r: Option<int>)
    ensures r.None? <==> DigitPrefixLength(SignBody(TrimStart(s))) == 0
  {
    var t := TrimStart(s);
    var body := SignBody(t);
    var k := DigitPrefixLength(body);
    if k == 0 then None
    else
      var v: int := DigitsValue(body[..k]);
      Some(if t != [] && t[0] == '-' then -v else v)
  }

  /** The text after an optional leading sign. */
  function SignBody(t: string): string {
    if t != [] && (t[0] == '-' || t[0] == '+') then t[1..] else t
  }

  /** `parseInt` of a string made only of digits is its decimal value. */
  lemma ParseIntOfDigits(s: string)
    requires s != [] && AllDigits(s)
    ensures ParseInt(s) == Some(DigitsValue(s))
  {
    assert TrimStart(s) == s;
    assert SignBody(s) == s;
    DigitPrefixOfDigits(s, "");
    assert s + "" == s;
    assert s[..|s|] == s;
  }

  /** `parseInt` reads back every integer `String` renders. */
  lemma ParseIntOfIntToString(n: int)
    ensures ParseInt(IntToString(n)) == Some(n)
  {
    if n >= 0 {
      NatToStringValue(n);
      ParseIntOfDigits(NatToString(n));
    } else {
      var digits := NatToString(-n);
      var t := "-" + digits;
      assert TrimStart(t) == t;
      assert SignBody(t) == digits;
      DigitPrefixOfDigits(digits, "");
      assert digits + "" == digits;
      assert digits[..|digits|] == digits;
      NatToStringValue(-n);
    }
  }

  /** `s.replace(/\D/g, '')`: only the decimal digits of `s`, in order. */
  function KeepDigits(s: string): (r: string)
    ensures AllDigits(r)
    ensures |r| <= |s|
    ensures AllDigits(s) ==> r == s
    ensures forall c :: c in r <==> c in s && IsDigit(c)
  {
    if s == [] then []
    else if IsDigit(s[0]) then [s[0]] + KeepDigits(s[1..])
    else KeepDigits(s[1..])
  }
}
