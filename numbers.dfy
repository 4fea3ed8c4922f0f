/** Python's `float(str)` on decimal literals, with amounts and confidences
    as exact reals rather than IEEE doubles. */
module Numbers {
  import opened Wrappers
  import opened Text

  function Pow10(k: nat): (r: nat)
    ensures r >= 1
  {
    if k == 0 then 1 else 10 * Pow10(k - 1)
  }

  /** `x * 10^e` for a signed exponent. */
  function Scale(x: real, e: int): (r: real)
    ensures x >= 0.0 ==> r >= 0.0
  {
    if e >= 0 then x * Pow10(e) as real else x / Pow10(-e) as real
  }

  /** The length of the run of digits at the start of `s`. */
  function LeadingDigits(s: string): (n: nat)
    ensures n <= |s| && AllDigits(s[..n])
    ensures n == |s| || !IsDigit(s[n])
  {
    if s == [] || !IsDigit(s[0]) then 0
    else
      var n := 1 + LeadingDigits(s[1..]);
      assert s[..n] == [s[0]] + s[1..][..n - 1];
      n
  }

  /** The value of the decimal literal `intDigits.fracDigits`. */
  function DecimalValue(intDigits: string, fracDigits: string): (r: real)
    requires AllDigits(intDigits) && AllDigits(fracDigits)
    ensures r >= DigitsValue(intDigits) as real
  {
    var frac := DigitsValue(fracDigits) as real / Pow10(|fracDigits|) as real;
    assert frac >= 0.0;
    DigitsValue(intDigits) as real + frac
  }

  /** An exponent part `[eE][+-]?\d+` that makes up all of `s`. */
  function ParseExponent(s: string): (r: Option<int>)
    ensures r.Some? ==> |s| >= 2 && (s[0] == 'e' || s[0] == 'E')
  {
    if |s| < 2 || (s[0] != 'e' && s[0] != 'E') then None
    else
      var neg := s[1] == '-';
      var digits := if s[1] == '+' || s[1] == '-' then s[2..] else s[1..];
      if digits != [] && AllDigits(digits) then
        Some(if neg then -(DigitsValue(digits) as int) else DigitsValue(digits) as int)
      else None
  }

  /** `float(s)`: surrounding white space, an optional sign, digits with at
      most one decimal point (at least one digit in all) and an optional
      exponent, where single underscores may group the digits. None is the
      ValueError. */
  function ParseFloat(s: string): (r: Option<real>)
    ensures !WellGrouped(Strip(s)) ==> r.None?
    ensures NoUnderscore(Strip(s)) ==> r == ParseSigned(Strip(s))
  {
    var t := Strip(s);
    UngroupPlain(t);
    if WellGrouped(t) then ParseSigned(Ungroup(t)) else None
  }

  predicate NoUnderscore(s: string) {
    forall i :: 0 <= i < |s| ==> s[i] != '_'
  }

  /** Every underscore stands between two digits. */
  predicate WellGrouped(s: string) {
    forall i :: 0 <= i < |s| ==> GroupedAt(s, i)
  }

  predicate GroupedAt(s: string, i: nat)
    requires i < |s|
  {
    s[i] == '_' ==> 0 < i < |s| - 1 && IsDigit(s[i - 1]) && IsDigit(s[i + 1])
  }

  /** The literal with its grouping underscores removed. */
  function Ungroup(s: string): (r: string)
    ensures NoUnderscore(r)
  {
    if s == [] then [] else (if s[0] == '_' then [] else [s[0]]) + Ungroup(s[1..])
  }

  /** Without underscores there is nothing to ungroup. */
  lemma {:induction false} UngroupPlain(s: string)
    ensures NoUnderscore(s) ==> WellGrouped(s) && Ungroup(s) == s
  {
    if s != [] && NoUnderscore(s) {
      assert NoUnderscore(s[1..]);
      UngroupPlain(s[1..]);
      assert s == [s[0]] + s[1..];
    }
  }

  lemma {:induction false} UngroupAppend(a: string, b: string)
    ensures Ungroup(a + b) == Ungroup(a) + Ungroup(b)
  {
    if a == [] {
      assert a + b == b;
    } else {
      assert (a + b)[1..] == a[1..] + b;
      UngroupAppend(a[1..], b);
    }
  }

  /** Gluing two well-grouped literals at a digit, with or without an
      underscore, gives a well-grouped literal. */
  lemma GroupedJoin(x: string, y: string, sep: string)
    requires sep == [] || sep == "_"
    requires x != [] && y != [] && IsDigit(x[|x| - 1]) && IsDigit(y[0])
    requires WellGrouped(x) && WellGrouped(y)
    ensures WellGrouped(x + sep + y)
  {
    var s := x + sep + y;
    var m := |x| + |sep|;
    forall i | 0 <= i < |s| ensures GroupedAt(s, i) {
      if i < |x| {
        assert GroupedAt(x, i);
        assert s[i] == x[i];
        if x[i] == '_' {
          assert s[i - 1] == x[i - 1] && s[i + 1] == x[i + 1];
        }
      } else if i < m {
        assert s[i - 1] == x[|x| - 1] && s[i + 1] == y[0];
      } else {
        assert GroupedAt(y, i - m);
        assert s[i] == y[i - m];
        if y[i - m] == '_' {
          assert s[i - 1] == y[i - m - 1] && s[i + 1] == y[i - m + 1];
        }
      }
    }
  }

  /** A well-grouped literal without surrounding space is read ungrouped. */
  lemma ParseFloatGrouped(s: string)
    requires NoSpace(s) && WellGrouped(s)
    ensures ParseFloat(s) == ParseSigned(Ungroup(s))
  {
    StripOfNoSpace(s);
  }

  /** An underscore between two digits makes no difference to `float`. */
  lemma UnderscoreBetweenDigits(x: string, y: string)
    requires x != [] && y != [] && IsDigit(x[|x| - 1]) && IsDigit(y[0])
    requires NoSpace(x) && NoSpace(y) && WellGrouped(x) && WellGrouped(y)
    ensures ParseFloat(x + "_" + y) == ParseFloat(x + y)
  {
    NoSpaceAppend(x, "_");
    NoSpaceAppend(x + "_", y);
    NoSpaceAppend(x, y);
    GroupedJoin(x, y, "_");
    GroupedJoin(x, y, []);
    assert x + [] + y == x + y;
    ParseFloatGrouped(x + "_" + y);
    ParseFloatGrouped(x + y);
    UngroupAppend(x + "_", y);
    UngroupAppend(x, "_");
    UngroupAppend(x, y);
    assert Ungroup("_") == [];
    assert Ungroup(x + "_") == Ungroup(x);
    assert Ungroup(x + "_" + y) == Ungroup(x + y);
  }

  /** An optionally signed literal that makes up all of `t`. */
  function ParseSigned(t: string): Option<real> {
    if |t| > 0 && (t[0] == '+' || t[0] == '-') then
      match ParseUnsigned(t[1..])
      case None => None
      case Some(v) => Some(if t[0] == '-' then -v else v)
    else ParseUnsigned(t)
  }

  /** An unsigned decimal literal with an optional exponent that makes up all of `body`. */
  function ParseUnsigned(body: string): (r: Option<real>)
    ensures r.Some? ==> r.value >= 0.0
  {
    var n := LeadingDigits(body);
    var rest := body[n..];
    var hasDot := |rest| > 0 && rest[0] == '.';
    var afterDot := if hasDot then rest[1..] else rest;
    var m := if hasDot then LeadingDigits(afterDot) else 0;
    var tail := afterDot[m..];
    if n + m == 0 then None
    else
      var mantissa := DecimalValue(body[..n], afterDot[..m]);
      if tail == [] then Some(mantissa)
      else
        match ParseExponent(tail)
        case None => None
        case Some(e) => Some(Scale(mantissa, e))
  }

  /** Two digits, zero-padded. */
  function TwoDigits(n: nat): (r: string)
    requires n < 100
    ensures |r| == 2 && AllDigits(r) && DigitsValue(r) == n
  {
    var r := [DigitChar(n / 10), DigitChar(n % 10)];
    assert r[..1] == [DigitChar(n / 10)];
    assert [DigitChar(n / 10)][..0] == [];
    assert DigitsValue(r[..1]) == n / 10;
    r
  }

  /** An amount given in centavos written as pesos with two decimals,
      the form of the `payment_amount` the client sends ("50.00"). */
  function FormatCentavos(c: nat): string {
    NatToString(c / 100) + "." + TwoDigits(c % 100)
  }

  lemma {:induction false} LeadingDigitsOfAppend(a: string, b: string)
    requires AllDigits(a)
    requires b == [] || !IsDigit(b[0])
    ensures LeadingDigits(a + b) == |a|
  {
    if a != [] {
      assert (a + b)[1..] == a[1..] + b;
      LeadingDigitsOfAppend(a[1..], b);
    }
  }

  predicate NoSpace(s: string) {
    forall i :: 0 <= i < |s| ==> !IsSpace(s[i])
  }

  lemma StripOfNoSpace(s: string)
    requires NoSpace(s)
    ensures Strip(s) == s
  {
  }

  lemma NoSpaceAppend(a: string, b: string)
    requires NoSpace(a) && NoSpace(b)
    ensures NoSpace(a + b)
  {
    forall i | 0 <= i < |a + b| ensures !IsSpace((a + b)[i]) {
      if i < |a| { assert (a + b)[i] == a[i]; } else { assert (a + b)[i] == b[i - |a|]; }
    }
  }

  lemma DigitsNoUnderscore(s: string)
    requires AllDigits(s)
    ensures NoUnderscore(s)
  {
    forall i | 0 <= i < |s| ensures s[i] != '_' { assert IsDigit(s[i]); }
  }

  lemma NoUnderscoreAppend(a: string, b: string)
    requires NoUnderscore(a) && NoUnderscore(b)
    ensures NoUnderscore(a + b)
  {
    forall i | 0 <= i < |a + b| ensures (a + b)[i] != '_' {
      if i < |a| { assert (a + b)[i] == a[i]; } else { assert (a + b)[i] == b[i - |a|]; }
    }
  }

  /** Without white space or a sign in front, `float` reads the unsigned literal. */
  lemma ParseFloatUnsigned(s: string)
    requires NoSpace(s) && NoUnderscore(s)
    requires s == [] || (s[0] != '+' && s[0] != '-')
    ensures ParseFloat(s) == ParseUnsigned(s)
  {
    StripOfNoSpace(s);
    assert ParseFloat(s) == ParseSigned(s);
  }

  /** A literal `whole.fraction` reads back as its decimal value. */
  lemma PointLiteral(whole: string, fraction: string)
    requires whole != [] && AllDigits(whole) && AllDigits(fraction)
    ensures ParseUnsigned(whole + "." + fraction) == Some(DecimalValue(whole, fraction))
  {
    var s := whole + "." + fraction;
    assert s == whole + ("." + fraction);
    LeadingDigitsOfAppend(whole, "." + fraction);
    assert s[|whole|..] == "." + fraction;
    assert s[..|whole|] == whole;
    assert ("." + fraction)[1..] == fraction;
    LeadingDigitsOfAppend(fraction, "");
    assert fraction + "" == fraction;
    assert fraction[..|fraction|] == fraction;
    assert fraction[|fraction|..] == [];
  }

  lemma CentavosValue(c: nat)
    ensures DecimalValue(NatToString(c / 100), TwoDigits(c % 100)) == c as real / 100.0
  {
    assert Pow10(2) == 100;
    var w, f := c / 100, c % 100;
    assert c == w * 100 + f;
    assert c as real == (w as real) * 100.0 + f as real;
  }

  /** Reading back an amount written in centavos gives its value in pesos. */
  lemma ParseFormattedCentavos(c: nat)
    ensures ParseFloat(FormatCentavos(c)) == Some(c as real / 100.0)
  {
    var whole, cents := NatToString(c / 100), TwoDigits(c % 100);
    var s := FormatCentavos(c);
    assert s == whole + "." + cents;
    NoSpaceAppend(whole, ".");
    NoSpaceAppend(whole + ".", cents);
    DigitsNoUnderscore(whole);
    DigitsNoUnderscore(cents);
    NoUnderscoreAppend(whole, ".");
    NoUnderscoreAppend(whole + ".", cents);
    assert s[0] == whole[0];
    ParseFloatUnsigned(s);
    UnsignedFormattedCentavos(c);
  }

  lemma UnsignedFormattedCentavos(c: nat)
    ensures ParseUnsigned(FormatCentavos(c)) == Some(c as real / 100.0)
  {
    var whole, cents := NatToString(c / 100), TwoDigits(c % 100);
    assert FormatCentavos(c) == whole + "." + cents;
    PointLiteral(whole, cents);
    CentavosValue(c);
  }

  /** A whole number written in decimal reads back as itself. */
  lemma ParseNatToString(n: nat)
    ensures ParseFloat(NatToString(n)) == Some(n as real)
  {
    var s := NatToString(n);
    DigitsNoUnderscore(s);
    ParseFloatUnsigned(s);
    UnsignedNatToString(n);
  }

  lemma {:induction false} UnsignedNatToString(n: nat)
    ensures ParseUnsigned(NatToString(n)) == Some(n as real)
  {
    var s := NatToString(n);
    LeadingDigitsOfAppend(s, "");
    assert s + "" == s;
    assert s[..|s|] == s;
    assert s[|s|..] == [];
  }

  lemma {:induction false} CountCharAppend(a: string, b: string, c: char)
    ensures CountChar(a + b, c) == CountChar(a, c) + CountChar(b, c)
  {
    if a == [] {
      assert a + b == b;
    } else {
      assert (a + b)[1..] == a[1..] + b;
      CountCharAppend(a[1..], b, c);
    }
  }

  lemma {:induction false} CountCharAllDigits(s: string)
    requires AllDigits(s)
    ensures CountChar(s, '.') == 0
  {
    if s != [] { CountCharAllDigits(s[1..]); }
  }

  predicate DigitsAndDotsOnly(s: string) {
    forall i :: 0 <= i < |s| ==> IsDigit(s[i]) || s[i] == '.'
  }

  /** The dots of a digits-and-dots string, counted around its leading digits. */
  lemma DotsAfterLeadingDigits(s: string)
    requires DigitsAndDotsOnly(s)
    ensures var n := LeadingDigits(s);
      CountChar(s, '.') == CountChar(s[n..], '.') && (n < |s| ==> s[n] == '.')
  {
    var n := LeadingDigits(s);
    if n < |s| {
      assert IsDigit(s[n]) || s[n] == '.';
    }
    CountCharAllDigits(s[..n]);
    CountCharSplit(s, n, '.');
  }

  lemma CountCharSplit(s: string, n: nat, c: char)
    requires n <= |s|
    ensures CountChar(s, c) == CountChar(s[..n], c) + CountChar(s[n..], c)
  {
    assert s[..n] + s[n..] == s;
    CountCharAppend(s[..n], s[n..], c);
  }

  lemma CountLeadingDot(s: string)
    requires s != [] && s[0] == '.'
    ensures CountChar(s, '.') == 1 + CountChar(s[1..], '.')
  {
  }

  /** When `float` accepts an unsigned literal: digits before and after the
      point (at least one) and nothing after them but an exponent. */
  lemma ParseUnsignedSome(body: string)
    ensures var n := LeadingDigits(body);
      var rest := body[n..];
      var hasDot := |rest| > 0 && rest[0] == '.';
      var afterDot := if hasDot then rest[1..] else rest;
      var m := if hasDot then LeadingDigits(afterDot) else 0;
      var tail := afterDot[m..];
      ParseUnsigned(body).Some? <==> n + m > 0 && (tail == [] || ParseExponent(tail).Some?)
  {
  }

  lemma DigitsAndDotsFrom(s: string, k: nat)
    requires DigitsAndDotsOnly(s) && k <= |s|
    ensures DigitsAndDotsOnly(s[k..])
  {
    forall i | 0 <= i < |s[k..]| ensures IsDigit(s[k..][i]) || s[k..][i] == '.' {
      assert s[k..][i] == s[k + i];
    }
  }

  /** On a digits-and-dots string, the shape `float` accepts is the one with
      at most one dot and at least one digit. */
  lemma DotShape(s: string)
    requires DigitsAndDotsOnly(s)
    ensures var n := LeadingDigits(s);
      var rest := s[n..];
      var hasDot := |rest| > 0 && rest[0] == '.';
      var afterDot := if hasDot then rest[1..] else rest;
      var m := if hasDot then LeadingDigits(afterDot) else 0;
      var tail := afterDot[m..];
      (n + m > 0 && (tail == [] || ParseExponent(tail).Some?))
      <==> CountChar(s, '.') <= 1 && CountChar(s, '.') < |s|
  {
    var n := LeadingDigits(s);
    var rest := s[n..];
    DotsAfterLeadingDigits(s);
    if rest != [] {
      CountLeadingDot(rest);
      var afterDot := rest[1..];
      DigitsAndDotsFrom(s, n + 1);
      assert afterDot == s[n + 1..];
      DotsAfterLeadingDigits(afterDot);
      var m := LeadingDigits(afterDot);
      var tail := afterDot[m..];
      if tail != [] {
        CountLeadingDot(tail);
      }
    }
  }

  /** The dot count of a digits-and-dots string decides whether it is an
      unsigned literal. */
  lemma UnsignedDigitsAndDots(s: string)
    requires DigitsAndDotsOnly(s)
    ensures ParseUnsigned(s).Some? <==> CountChar(s, '.') <= 1 && CountChar(s, '.') < |s|
  {
    ParseUnsignedSome(s);
    DotShape(s);
  }

  /** What `float()` makes of a string of digits and dots, such as the amount
      left after `re.sub(r'[^\d\.]', '', ...)`: a number exactly when there is
      at most one dot and at least one digit, and never a negative one. */
  lemma ParseDigitsAndDots(s: string)
    requires DigitsAndDotsOnly(s)
    ensures ParseFloat(s).Some? <==> CountChar(s, '.') <= 1 && CountChar(s, '.') < |s|
    ensures ParseFloat(s).Some? ==> ParseFloat(s).value >= 0.0
  {
    assert NoSpace(s) && NoUnderscore(s);
    ParseFloatUnsigned(s);
    UnsignedDigitsAndDots(s);
  }
}
