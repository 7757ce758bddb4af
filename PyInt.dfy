/** Python's `int(text)` on base-10 text, and its inverse `str(n)`. */
module PyInt {
  import opened Wrappers
  import opened PyStr

  predicate IsDigit(c: char)
  {
    '0' <= c <= '9'
  }

  /** Characters that can appear in text `int()` accepts, once stripped. */
  predicate IsNumeral(c: char)
  {
    IsDigit(c) || c == '_' || c == '+' || c == '-'
  }

  /** Decimal digits in which a single underscore may separate two digits:
      the body `int()` accepts after an optional sign. Read from the end: a
      digit, preceded by nothing, by another run, or by '_' and another run. */
  predicate IsDigitRun(s: string)
    decreases |s|
  {
    |s| > 0 && IsDigit(s[|s| - 1])
    && (|s| == 1
        || (if s[|s| - 2] == '_' then IsDigitRun(s[..|s| - 2]) else IsDigitRun(s[..|s| - 1])))
  }

  lemma {:induction false} DigitRunChars(s: string)
    requires IsDigitRun(s)
    ensures forall i :: 0 <= i < |s| ==> IsDigit(s[i]) || s[i] == '_'
    decreases |s|
  {
    if |s| > 1 {
      var k := if s[|s| - 2] == '_' then |s| - 2 else |s| - 1;
      DigitRunChars(s[..k]);
      assert forall i :: 0 <= i < k ==> s[..k][i] == s[i];
    }
  }

  /** Decimal digits only, at least one. */
  predicate IsPlainDigits(s: string)
  {
    s != [] && forall i :: 0 <= i < |s| ==> IsDigit(s[i])
  }

  lemma {:induction false} PlainDigitsRun(s: string)
    requires IsPlainDigits(s)
    ensures IsDigitRun(s)
    decreases |s|
  {
    if |s| > 1 {
      var init := s[..|s| - 1];
      assert forall i :: 0 <= i < |init| ==> init[i] == s[i];
      PlainDigitsRun(init);
    }
  }

  /** The value of a run of digits, underscores skipped. */
  function DigitsValue(s: string): nat
  {
    if s == [] then 0
    else
      var last := s[|s| - 1];
      var v := DigitsValue(s[..|s| - 1]);
      if IsDigit(last) then 10 * v + (last as int - '0' as int) else v
  }

  /** The information separators U+001C to U+001F: `str.isspace()` holds
      for them, but `int()` skips only the ASCII whitespace tab to carriage
      return and space (and turns other Unicode whitespace into spaces), so
      to `int()` they are neither whitespace nor part of a number. */
  predicate IsInfoSeparator(c: char)
  {
    '\U{1C}' <= c <= '\U{1F}'
  }

  predicate NoInfoSeparator(s: string)
  {
    forall i :: 0 <= i < |s| ==> !IsInfoSeparator(s[i])
  }

  /** `int(text)`: surrounding whitespace is ignored, and the rest must be
      an integer literal; anything else is the ValueError Python raises, here
      None. An information separator anywhere in the text is refused, since
      `int()` neither skips it nor reads it as a digit; without one, the
      whitespace `int()` skips is exactly what `strip()` removes. */
  function ParseInt(text: string): Option<int>
  {
    if NoInfoSeparator(text) then ParseLiteral(Strip(text)) else None
  }

  /** An optional sign followed by a run of digits. */
  function ParseLiteral(t: string): Option<int>
  {
    if |t| > 0 && (t[0] == '+' || t[0] == '-') then
      var magnitude: int := DigitsValue(t[1..]);
      if IsDigitRun(t[1..]) then Some(if t[0] == '-' then -magnitude else magnitude)
      else None
    else if IsDigitRun(t) then Some(DigitsValue(t))
    else None
  }

  function DigitChar(d: int): char
    requires 0 <= d < 10
  {
    ('0' as int + d) as char
  }

  /** The decimal digits of `n`, most significant first, no leading zero. */
  function NatDigits(n: nat): string
  {
    if n < 10 then [DigitChar(n)] else NatDigits(n / 10) + [DigitChar(n % 10)]
  }

  /** `str(n)` */
  function Decimal(n: int): string
  {
    if n < 0 then "-" + NatDigits(-n) else NatDigits(n)
  }

  lemma {:induction false} NatDigitsValue(n: nat)
    ensures IsDigitRun(NatDigits(n)) && DigitsValue(NatDigits(n)) == n
    ensures forall i :: 0 <= i < |NatDigits(n)| ==> IsDigit(NatDigits(n)[i])
  {
    if n >= 10 {
      NatDigitsValue(n / 10);
      var s := NatDigits(n);
      assert s[..|s| - 1] == NatDigits(n / 10);
    }
  }

  /** What `int()` accepts is, once stripped, made of digits, underscores and
      signs only, and it ends in a digit. */
  lemma ParseIntNumeral(text: string)
    requires ParseInt(text).Some?
    ensures NoInfoSeparator(text)
    ensures var t := Strip(text);
      t != [] && IsDigit(t[|t| - 1])
      && forall i :: 0 <= i < |t| ==> IsNumeral(t[i])
  {
    var t := Strip(text);
    if |t| > 0 && (t[0] == '+' || t[0] == '-') {
      DigitRunChars(t[1..]);
      forall i | 1 <= i < |t| ensures IsNumeral(t[i]) {
        assert t[1..][i - 1] == t[i];
      }
    } else {
      DigitRunChars(t);
    }
  }

  /** `int()` reads only the stripped text. */
  lemma ParseIntStripped(text: string, t: string)
    requires Strip(text) == t && Trimmed(t) && NoInfoSeparator(text)
    ensures ParseInt(text) == ParseInt(t)
  {
    StripSplits(text);
    var n := |text| - |LStrip(text)|;
    assert forall i :: 0 <= i < |t| ==> t[i] == text[n + i];
    StripTrimmed(t);
  }

  /** A run of plain digits, with or without a leading '-', reads as its
      value. */
  lemma LiteralDigits(d: string)
    requires IsDigitRun(d) && forall i :: 0 <= i < |d| ==> IsDigit(d[i])
    ensures ParseLiteral(d) == Some(DigitsValue(d))
    ensures ParseLiteral("-" + d) == Some(-(DigitsValue(d) as int))
  {
    assert IsDigit(d[0]);
    assert ("-" + d)[1..] == d;
  }

  /** Text with no surrounding whitespace is read as it stands. */
  lemma ParseIntTrimmed(t: string)
    requires Trimmed(t) && NoInfoSeparator(t)
    ensures ParseInt(t) == ParseLiteral(t)
  {
    StripTrimmed(t);
  }

  /** Plain digits read as their value; leading zeros are allowed. */
  lemma ParseIntPlain(d: string)
    requires IsPlainDigits(d)
    ensures ParseInt(d) == Some(DigitsValue(d))
  {
    PlainDigitsRun(d);
    ParseIntTrimmed(d);
    LiteralDigits(d);
  }

  /** The same digits after a '-' read as the negated value. */
  lemma ParseIntDigits(d: string)
    requires IsPlainDigits(d)
    ensures ParseInt(d) == Some(DigitsValue(d))
    ensures ParseInt("-" + d) == Some(-(DigitsValue(d) as int))
  {
    ParseIntPlain(d);
    var neg := "-" + d;
    assert IsDigit(d[|d| - 1]) && neg[|neg| - 1] == d[|d| - 1];
    assert forall i :: 1 <= i < |neg| ==> neg[i] == d[i - 1];
    ParseIntTrimmed(neg);
    PlainDigitsRun(d);
    LiteralDigits(d);
  }

  lemma ParseIntNatDigits(m: nat)
    ensures ParseInt(NatDigits(m)) == Some(m)
    ensures ParseInt("-" + NatDigits(m)) == Some(-(m as int))
  {
    var d := NatDigits(m);
    NatDigitsValue(m);
    ParseIntDigits(d);
  }

  /** `int(str(n)) == n`, with any whitespace `int()` skips around the
      digits. */
  lemma ParseIntDecimal(lead: string, n: int, trail: string)
    requires AllSpace(lead) && AllSpace(trail) && NoInfoSeparator(lead) && NoInfoSeparator(trail)
    ensures ParseInt(lead + Decimal(n) + trail) == Some(n)
  {
    DecimalShape(n);
    var text := lead + Decimal(n) + trail;
    assert forall i :: |lead| <= i < |lead| + |Decimal(n)| ==> text[i] == Decimal(n)[i - |lead|];
    assert forall i :: |lead| + |Decimal(n)| <= i < |text| ==> text[i] == trail[i - |lead| - |Decimal(n)|];
    StripPadded(lead, Decimal(n), trail);
    ParseIntStripped(lead + Decimal(n) + trail, Decimal(n));
    ParseIntNatDigits(if n < 0 then -n else n);
  }

  /** `int(str(n)) == n` */
  lemma ParseIntOfDecimal(n: int)
    ensures ParseInt(Decimal(n)) == Some(n)
  {
    ParseIntDecimal([], n, []);
    assert [] + Decimal(n) + [] == Decimal(n);
  }

  /** `str(n)` has no surrounding whitespace and is made of digits and a sign. */
  lemma DecimalShape(n: int)
    ensures Trimmed(Decimal(n))
    ensures forall i :: 0 <= i < |Decimal(n)| ==> IsNumeral(Decimal(n)[i])
  {
    var d := Decimal(n);
    NatDigitsValue(if n < 0 then -n else n);
    if n < 0 {
      assert d[1..] == NatDigits(-n);
      forall i | 1 <= i < |d| ensures IsNumeral(d[i]) {
        assert d[1..][i - 1] == d[i];
      }
    }
  }
}
