/** `parseItemCount`: the locale-tolerant reader of the item-count cell.
    Whitespace is dropped, the decimal separator is guessed from the mix of
    ',' and '.', the longest decimal prefix is read (as `parseFloat` does)
    and rounded half up (as `Math.round` does). Numbers are exact decimals
    here: a mantissa and a count of fractional digits. */
module ItemCount {
  import opened Base
  import opened Strings

  function Pow10(k: nat): (p: nat)
    ensures p >= 1
  {
    if k == 0 then 1 else 10 * Pow10(k - 1)
  }

  /** The exact value `mantissa / 10^scale`. */
  datatype Decimal = Decimal(mantissa: int, scale: nat)

  /** `r` is `Math.round(d)`, i.e. `floor(d + 1/2)`: the integer with
      `r - 1/2 <= d < r + 1/2`, so that halves go up (towards +Infinity). */
  ghost predicate IsRoundOf(r: int, d: Decimal) {
    2 * r * Pow10(d.scale) - Pow10(d.scale) <= 2 * d.mantissa < 2 * r * Pow10(d.scale) + Pow10(d.scale)
  }

  function RoundHalfUp(d: Decimal): (r: int)
    ensures IsRoundOf(r, d)
  {
    var p := Pow10(d.scale);
    var t := 2 * d.mantissa + p;
    var q := t / (2 * p);
    assert q * (2 * p) <= t < q * (2 * p) + 2 * p by {
      DivBounds(t, 2 * p);
    }
    assert q * (2 * p) == 2 * q * p;
    q
  }

  lemma DivBounds(t: int, m: int)
    requires m > 0
    ensures (t / m) * m <= t < (t / m) * m + m
  {
  }

  lemma MulAtLeast(x: int, p: int)
    requires x >= 1 && p >= 1
    ensures x * p >= p
  {
    assert x * p == p + (x - 1) * p;
    assert (x - 1) * p >= 0;
  }

  /** Rounding is a function: at most one integer is the round of `d`. */
  lemma RoundUnique(d: Decimal, a: int, b: int)
    requires IsRoundOf(a, d) && IsRoundOf(b, d)
    ensures a == b
  {
    var p := Pow10(d.scale);
    var m := d.mantissa;
    assert 2 * a * p - p <= 2 * m < 2 * b * p + p;
    assert 2 * b * p - p <= 2 * m < 2 * a * p + p;
    assert 2 * a * p - 2 * b * p == 2 * ((a - b) * p);
    if a > b {
      MulAtLeast(a - b, p);
      assert false;
    } else if b > a {
      MulAtLeast(b - a, p);
      assert false;
    }
  }

  /** `s.replace(/,/g, '')`. */
  function RemoveChar(s: string, c: char): (r: string)
    ensures |r| <= |s|
    ensures forall x :: x in r <==> x in s && x != c
  {
    if s == [] then []
    else if s[0] == c then RemoveChar(s[1..], c)
    else [s[0]] + RemoveChar(s[1..], c)
  }

  /** `s.replace(c, d)` with a plain-string pattern: only the first `c`. */
  function ReplaceFirst(s: string, c: char, d: char): (r: string)
    ensures |r| == |s|
    ensures c !in s ==> r == s
    ensures c in s ==> (
      && r[IndexOf(s, c)] == d
      && forall i :: 0 <= i < |s| && i != IndexOf(s, c) ==> r[i] == s[i])
  {
    var k := IndexOf(s, c);
    if k == |s| then
      assert s[..k] == s;
      s
    else s[..k] + [d] + s[k + 1..]
  }

  /** The separator guess: with both ',' and '.' present every ',' is a
      thousands separator and is dropped; with only ',' the first one is
      the decimal point; otherwise the text is kept. */
  function NormalizeSeparators(s: string): (r: string)
    ensures ',' in s && '.' in s ==> ',' !in r && '.' in r
    ensures ',' in s && '.' !in s ==> |r| == |s| && '.' in r
    ensures ',' !in s ==> r == s
  {
    if ',' in s && '.' in s then RemoveChar(s, ',')
    else if ',' in s then
      assert ReplaceFirst(s, ',', '.')[IndexOf(s, ',')] == '.';
      ReplaceFirst(s, ',', '.')
    else s
  }

  /** `parseFloat` on a text without leading whitespace, for the decimal
      forms: an optional sign, digits, and an optional '.' with more digits;
      at least one digit must occur before or after the point. The longest
      such prefix is read; nothing readable is NaN (None). */
  function DecimalPrefix(s: string): (r: Option<Decimal>)
    ensures r.None? <==> (
      var body := SignBody(s);
      var rest := body[DigitPrefixLength(body)..];
      && DigitPrefixLength(body) == 0
      && !(rest != [] && rest[0] == '.' && DigitPrefixLength(rest[1..]) > 0))
  {
    var neg := s != [] && s[0] == '-';
    var body := SignBody(s);
    var k := DigitPrefixLength(body);
    var rest := body[k..];
    var f := if rest != [] && rest[0] == '.' then DigitPrefixLength(rest[1..]) else 0;
    if k == 0 && f == 0 then None
    else
      var fracDigits := if f > 0 then rest[1..][..f] else [];
      var digits := body[..k] + fracDigits;
      AllDigitsConcat(body[..k], fracDigits);
      var m: int := DigitsValue(digits);
      Some(Decimal(if neg then -m else m, f))
  }

  /** `parseItemCount(value)`: 0 for a missing, empty or blank cell and for
      a text with no readable number; otherwise the round (halves up) of
      the decimal read once all whitespace is removed and the separator
      guess applied. */
  function ParseItemCount(value: Option<string>): (r: int)
    ensures !Truthy(value) ==> r == 0
    ensures Truthy(value) && AllWhitespace(value.value) ==> r == 0
    ensures value.Some? && !AllWhitespace(value.value) ==> (
      match DecimalPrefix(NormalizeSeparators(RemoveWhitespace(value.value)))
      case None => r == 0
      case Some(d) => IsRoundOf(r, d))
  {
    if !Truthy(value) then 0
    else
      var trimmed := Trim(value.value);
      if trimmed == "" then 0
      else
        var cleaned := NormalizeSeparators(RemoveWhitespace(trimmed));
        RemoveWhitespaceTrim(value.value);
        match DecimalPrefix(cleaned)
        case None => 0
        case Some(d) => RoundHalfUp(d)
  }

  lemma {:induction false} RemoveWhitespaceNoop(s: string)
    requires forall i :: 0 <= i < |s| ==> !IsWhitespace(s[i])
    ensures RemoveWhitespace(s) == s
    decreases |s|
  {
    if s != [] {
      RemoveWhitespaceNoop(s[1..]);
      assert [s[0]] + s[1..] == s;
    }
  }

  /** A rendered integer, sign included, reads as an exact integer. */
  lemma DecimalPrefixOfIntText(n: int)
    ensures DecimalPrefix(IntToString(n)) == Some(Decimal(n, 0))
  {
    var s := IntToString(n);
    var digits := NatToString(if n >= 0 then n else -n);
    assert SignBody(s) == digits;
    DigitPrefixOfDigits(digits, "");
    assert digits + "" == digits;
    assert digits[..|digits|] == digits;
    assert digits[|digits|..] == [];
    NatToStringValue(if n >= 0 then n else -n);
    assert digits + [] == digits;
  }

  /** The cell `String(n)`, as the write-back stores it, is read back as
      `n`. */
  lemma ItemCountRoundTrip(n: int)
    ensures ParseItemCount(Some(IntToString(n))) == n
  {
    var s := IntToString(n);
    var digits := NatToString(if n >= 0 then n else -n);
    DigitsAreNumberChars(digits);
    if n < 0 {
      NumberCharsConcat("-", digits);
    }
    NumberCharsNoWhitespace(s);
    forall i | 0 <= i < |s| ensures s[i] != ',' {
      if n < 0 && i > 0 { assert s[i] == digits[i - 1]; }
    }
    assert NormalizeSeparators(RemoveWhitespace(s)) == s;
    DecimalPrefixOfIntText(n);
    RoundUnique(Decimal(n, 0), ParseItemCount(Some(s)), n);
  }

  /** Characters a number cell is written with. */
  predicate NumberChars(t: string) {
    forall i :: 0 <= i < |t| ==> IsDigit(t[i]) || t[i] == ',' || t[i] == '.' || t[i] == '-'
  }

  lemma DigitsAreNumberChars(t: string)
    requires AllDigits(t)
    ensures NumberChars(t)
  {
  }

  lemma NumberCharsConcat(a: string, b: string)
    requires NumberChars(a) && NumberChars(b)
    ensures NumberChars(a + b)
  {
    forall i | 0 <= i < |a + b|
      ensures IsDigit((a + b)[i]) || (a + b)[i] == ',' || (a + b)[i] == '.' || (a + b)[i] == '-'
    {
      if i >= |a| { assert (a + b)[i] == b[i - |a|]; }
    }
  }

  lemma NumberCharsNoWhitespace(t: string)
    requires NumberChars(t)
    ensures RemoveWhitespace(t) == t
    ensures t != [] ==> !AllWhitespace(t)
  {
    RemoveWhitespaceNoop(t);
    if t != [] {
      assert !IsWhitespace(t[0]);
    }
  }

  /** The count as a function of the text with all whitespace removed. */
  function CountOfCleaned(c: string): int {
    if c == [] then 0
    else
      match DecimalPrefix(NormalizeSeparators(c))
      case None => 0
      case Some(d) => RoundHalfUp(d)
  }

  /** Trimming before removing whitespace, as the source does, makes no
      difference: the count depends only on the whitespace-free text. */
  lemma ParseItemCountByRemoved(s: string)
    ensures ParseItemCount(Some(s)) == CountOfCleaned(RemoveWhitespace(s))
  {
    if AllWhitespace(s) {
      RemoveWhitespaceOfBlank(s);
    } else {
      var j :| 0 <= j < |s| && !IsWhitespace(s[j]);
      RemoveWhitespaceMembers(s);
      assert s[j] in RemoveWhitespace(s);
      RemoveWhitespaceTrim(s);
    }
  }

  /** Spaces anywhere in the cell never change the count, not only at the
      ends: "1 000" reads as "1000". */
  lemma SpacesIgnored(a: string, b: string, w: char)
    requires IsWhitespace(w)
    ensures ParseItemCount(Some(a + [w] + b)) == ParseItemCount(Some(a + b))
  {
    RemoveWhitespaceConcat(a + [w], b);
    RemoveWhitespaceConcat(a, [w]);
    RemoveWhitespaceConcat(a, b);
    assert RemoveWhitespace([w]) == [];
    assert RemoveWhitespace(a + [w]) == RemoveWhitespace(a);
    ParseItemCountByRemoved(a + [w] + b);
    ParseItemCountByRemoved(a + b);
  }

  /** A whitespace-free cell is read from its own text. */
  lemma ParseItemCountOfClean(t: string)
    requires RemoveWhitespace(t) == t
    ensures ParseItemCount(Some(t)) == CountOfCleaned(t)
  {
    ParseItemCountByRemoved(t);
  }

  /** The value of the decimal text "a.b": the digits of `a` then those of
      `b`, with `|b|` of them after the point. */
  function Mantissa(a: string, b: string): (m: nat)
    requires AllDigits(a) && AllDigits(b)
  {
    DigitsValue(a) * Pow10(|b|) + DigitsValue(b)
  }

  lemma {:induction false} DigitsValueConcat(a: string, b: string)
    requires AllDigits(a) && AllDigits(b)
    ensures AllDigits(a + b) && DigitsValue(a + b) == Mantissa(a, b)
    decreases |b|
  {
    AllDigitsConcat(a, b);
    if b == [] {
      assert a + b == a;
    } else {
      var b' := b[..|b| - 1];
      var d := b[|b| - 1] as int - '0' as int;
      assert (a + b)[..|a + b| - 1] == a + b';
      assert (a + b)[|a + b| - 1] == b[|b| - 1];
      DigitsValueConcat(a, b');
      assert DigitsValue(a + b) == Mantissa(a, b') * 10 + d;
      assert DigitsValue(b) == DigitsValue(b') * 10 + d;
      ShiftDigit(DigitsValue(a), Pow10(|b'|), DigitsValue(b'), d);
    }
  }

  /** One more digit on the right multiplies the scale by ten. */
  lemma ShiftDigit(x: int, p: int, y: int, d: int)
    ensures (x * p + y) * 10 + d == x * (10 * p) + (y * 10 + d)
  {
  }

  lemma AllDigitsConcat(a: string, b: string)
    requires AllDigits(a) && AllDigits(b)
    ensures AllDigits(a + b)
  {
    forall i | 0 <= i < |a + b| ensures IsDigit((a + b)[i]) {
      if i >= |a| { assert (a + b)[i] == b[i - |a|]; }
    }
  }

  /** The documented forms: a plain count, a count with a space between
      thousands and a decimal comma, and a count with a thousands comma and
      a decimal point. */
  lemma ExamplePlain()
    ensures ParseItemCount(Some("250")) == 250
  {
    assert NatToString(2) == "2";
    assert NatToString(25) == "25";
    assert IntToString(250) == "250";
    ItemCountRoundTrip(250);
  }

  lemma ExampleDecimalComma()
    ensures ParseItemCount(Some("1 234,50")) == 1235
  {
    assert "1" + [' '] + ("234" + "," + "50") == "1 234,50";
    ReadSpacedDecimalComma("1", "234", "50");
    SmallValues();
    RoundsTo(Decimal(123450, 2), 1235);
    RoundUnique(Decimal(123450, 2), ParseItemCount(Some("1 234,50")), 1235);
  }

  lemma ExampleThousandsComma()
    ensures ParseItemCount(Some("1,000.00")) == 1000
  {
    var t := "1" + "," + "000" + "." + "00";
    assert t == "1,000.00";
    ReadThousandsComma("1", "000", "00");
    ParseItemCountOfClean(t);
    SmallValues();
    var d := Decimal(100000, 2);
    RoundsTo(d, 1000);
    RoundUnique(d, CountOfCleaned(t), 1000);
  }

  /** `Math.round` of the two example amounts. */
  lemma RoundsTo(d: Decimal, r: int)
    requires (d == Decimal(100000, 2) && r == 1000) || (d == Decimal(123450, 2) && r == 1235)
    ensures IsRoundOf(r, d)
  {
    SmallValues();
  }

  lemma SmallValues()
    ensures Pow10(2) == 100 && Pow10(3) == 1000
    ensures DigitsValue("1") == 1 && DigitsValue("50") == 50 && DigitsValue("00") == 0
    ensures DigitsValue("234") == 234 && DigitsValue("000") == 0
    ensures Mantissa("1", "234") * Pow10(2) + DigitsValue("50") == 123450
    ensures Mantissa("1", "000") * Pow10(2) + DigitsValue("00") == 100000
  {
    assert "50"[..1] == "5";
    assert "00"[..1] == "0";
    assert "234"[..2] == "23" && "23"[..1] == "2";
    assert "000"[..2] == "00";
  }

  /** Digits, a space, digits, a decimal comma, digits: the space is
      ignored and the comma read as the point. */
  lemma ReadSpacedDecimalComma(a: string, b: string, c: string)
    requires a != [] && AllDigits(a) && AllDigits(b) && c != [] && AllDigits(c)
    ensures IsRoundOf(ParseItemCount(Some(a + [' '] + (b + "," + c))),
                      Decimal(Mantissa(a, b) * Pow10(|c|) + DigitsValue(c), |c|))
  {
    var rest := b + "," + c;
    Regroup(a, b, c);
    DigitsAreNumberChars(a);
    DigitsAreNumberChars(b);
    DigitsAreNumberChars(c);
    NumberCharsConcat(b, ",");
    NumberCharsConcat(b + ",", c);
    NumberCharsNoWhitespace(a);
    NumberCharsNoWhitespace(rest);
    DropSpace(a, rest);
    ParseItemCountByRemoved(a + [' '] + rest);
    DigitsValueConcat(a, b);
    ReadDecimalComma(a + b, c);
  }

  lemma DropSpace(a: string, rest: string)
    requires RemoveWhitespace(a) == a && RemoveWhitespace(rest) == rest
    ensures RemoveWhitespace(a + [' '] + rest) == a + rest
  {
    RemoveWhitespaceConcat(a, [' ']);
    RemoveWhitespaceConcat(a + [' '], rest);
    assert RemoveWhitespace([' ']) == [];
    assert a + [] == a;
  }

  lemma Regroup(a: string, b: string, c: string)
    ensures a + (b + "," + c) == (a + b) + "," + c
  {
  }

  /** Digits, a decimal comma, digits: the comma is read as the point. */
  lemma ReadDecimalComma(a: string, b: string)
    requires a != [] && AllDigits(a) && b != [] && AllDigits(b)
    ensures RemoveWhitespace(a + "," + b) == a + "," + b
    ensures IsRoundOf(CountOfCleaned(a + "," + b), Decimal(Mantissa(a, b), |b|))
  {
    DecimalCommaText(a, b);
    ReadDecimal(a, b);
  }

  lemma DecimalCommaText(a: string, b: string)
    requires a != [] && AllDigits(a) && AllDigits(b)
    ensures RemoveWhitespace(a + "," + b) == a + "," + b
    ensures NormalizeSeparators(a + "," + b) == a + "." + b
  {
    DecimalCommaClean(a, b);
    DecimalCommaNormal(a, b);
  }

  lemma DecimalCommaClean(a: string, b: string)
    requires AllDigits(a) && AllDigits(b)
    ensures RemoveWhitespace(a + "," + b) == a + "," + b
  {
    DigitsAreNumberChars(a);
    DigitsAreNumberChars(b);
    NumberCharsConcat(a, ",");
    NumberCharsConcat(a + ",", b);
    NumberCharsNoWhitespace(a + "," + b);
  }

  lemma DecimalCommaNormal(a: string, b: string)
    requires AllDigits(a) && AllDigits(b)
    ensures NormalizeSeparators(a + "," + b) == a + "." + b
  {
    var t := a + "," + b;
    forall i | 0 <= i < |t| ensures t[i] != '.' {
      if i < |a| { assert t[i] == a[i]; } else if i > |a| { assert t[i] == b[i - |a| - 1]; }
    }
    IndexOfAfterFree(a, ',', b);
    assert t[..|a|] == a;
    assert t[|a| + 1..] == b;
  }

  /** Digits, a thousands comma, digits, a decimal point, digits: the comma
      is dropped. */
  lemma ReadThousandsComma(a: string, b: string, c: string)
    requires a != [] && AllDigits(a) && AllDigits(b) && c != [] && AllDigits(c)
    ensures RemoveWhitespace(a + "," + b + "." + c) == a + "," + b + "." + c
    ensures IsRoundOf(CountOfCleaned(a + "," + b + "." + c),
                      Decimal(Mantissa(a, b) * Pow10(|c|) + DigitsValue(c), |c|))
  {
    ThousandsCommaText(a, b, c);
    DigitsValueConcat(a, b);
    ReadDecimal(a + b, c);
  }

  lemma ThousandsCommaText(a: string, b: string, c: string)
    requires a != [] && AllDigits(a) && AllDigits(b) && AllDigits(c)
    ensures RemoveWhitespace(a + "," + b + "." + c) == a + "," + b + "." + c
    ensures NormalizeSeparators(a + "," + b + "." + c) == (a + b) + "." + c
  {
    ThousandsCommaClean(a, b, c);
    var t := a + "," + b + "." + c;
    assert t[|a|] == ',' && t[|a| + 1 + |b|] == '.';
    RemoveCharOfParts(a, b, c);
  }

  lemma ThousandsCommaClean(a: string, b: string, c: string)
    requires AllDigits(a) && AllDigits(b) && AllDigits(c)
    ensures RemoveWhitespace(a + "," + b + "." + c) == a + "," + b + "." + c
  {
    DigitsAreNumberChars(a);
    DigitsAreNumberChars(b);
    DigitsAreNumberChars(c);
    NumberCharsConcat(a, ",");
    NumberCharsConcat(a + ",", b);
    NumberCharsConcat(a + "," + b, ".");
    NumberCharsConcat(a + "," + b + ".", c);
    NumberCharsNoWhitespace(a + "," + b + "." + c);
  }

  lemma RemoveCharOfParts(a: string, b: string, c: string)
    requires AllDigits(a) && AllDigits(b) && AllDigits(c)
    ensures RemoveChar(a + "," + b + "." + c, ',') == a + b + "." + c
  {
    var rest := b + "." + c;
    assert ',' !in rest by {
      forall i | 0 <= i < |rest| ensures rest[i] != ',' {
        if i < |b| { assert rest[i] == b[i]; }
        else if i > |b| { assert rest[i] == c[i - |b| - 1]; }
      }
    }
    var tail := [','] + rest;
    assert a + "," + b + "." + c == a + tail;
    RemoveCharConcat(a, tail, ',');
    RemoveCharNoop(a, ',');
    assert tail[1..] == rest;
    RemoveCharNoop(rest, ',');
  }

  lemma {:induction false} RemoveCharConcat(a: string, b: string, c: char)
    ensures RemoveChar(a + b, c) == RemoveChar(a, c) + RemoveChar(b, c)
    decreases |a|
  {
    if a == [] {
      assert a + b == b;
    } else {
      assert (a + b)[0] == a[0];
      assert (a + b)[1..] == a[1..] + b;
      RemoveCharConcat(a[1..], b, c);
    }
  }

  lemma {:induction false} RemoveCharNoop(s: string, c: char)
    requires c !in s
    ensures RemoveChar(s, c) == s
    decreases |s|
  {
    if s != [] {
      RemoveCharNoop(s[1..], c);
      assert [s[0]] + s[1..] == s;
    }
  }

  /** Reading "a.b" for digit strings `a` and `b`. */
  lemma ReadDecimal(a: string, b: string)
    requires a != [] && AllDigits(a) && b != [] && AllDigits(b)
    ensures DecimalPrefix(a + "." + b) == Some(Decimal(Mantissa(a, b), |b|))
  {
    var s := a + "." + b;
    assert SignBody(s) == s;
    assert s == a + ("." + b);
    DigitPrefixOfDigits(a, "." + b);
    assert s[..|a|] == a;
    assert s[|a|..] == "." + b;
    assert ("." + b)[1..] == b;
    DigitPrefixOfDigits(b, "");
    assert b + "" == b;
    assert b[..|b|] == b;
    DigitsValueConcat(a, b);
  }
}
