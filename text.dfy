/** Character classes and the small string operations that the Python and
    JavaScript sources take from their standard libraries (`re.sub(r'\D', '', s)`,
    `str.strip`, `str.upper`, `str.rfind`, `String.trim`, ...).

    Character classes are the ASCII ones: `\d` is `0`-`9`, `\s` and `strip`
    use the six ASCII white-space characters, upper/lower case maps only
    `A`-`Z`/`a`-`z`. */
module Text {

  predicate IsDigit(c: char) {
    '0' <= c <= '9'
  }

  predicate IsSpace(c: char) {
    c == ' ' || c == '\t' || c == '\n' || c == '\r' || c == '\U{000B}' || c == '\U{000C}'
  }

  predicate IsUpperLetter(c: char) {
    'A' <= c <= 'Z'
  }

  predicate IsLowerLetter(c: char) {
    'a' <= c <= 'z'
  }

  predicate IsLetter(c: char) {
    IsUpperLetter(c) || IsLowerLetter(c)
  }

  /** The regex word class `\w`: letters, digits and the underscore. */
  predicate IsWordChar(c: char) {
    IsLetter(c) || IsDigit(c) || c == '_'
  }

  predicate AllDigits(s: string) {
    forall i :: 0 <= i < |s| ==> IsDigit(s[i])
  }

  /** `re.fullmatch(r'\d{7,16}', s)`: seven to sixteen digits and nothing else. */
  predicate IsReferenceDigits(s: string) {
    7 <= |s| <= 16 && AllDigits(s)
  }

  /** `re.sub(r'\D', '', s)`: the digits of `s`, in order. */
  function DigitsOnly(s: string): (r: string)
    ensures AllDigits(r)
    ensures |r| <= |s|
    ensures AllDigits(s) ==> r == s
    ensures forall i :: 0 <= i < |r| ==> r[i] in s
  {
    if s == [] then []
    else if IsDigit(s[0]) then [s[0]] + DigitsOnly(s[1..])
    else DigitsOnly(s[1..])
  }

  /** `re.sub(r'[^\d\.]', '', s)`: the digits and dots of `s`, in order. */
  function DigitsAndDots(s: string): (r: string)
    ensures |r| <= |s|
    ensures forall i :: 0 <= i < |r| ==> IsDigit(r[i]) || r[i] == '.'
  {
    if s == [] then []
    else if IsDigit(s[0]) || s[0] == '.' then [s[0]] + DigitsAndDots(s[1..])
    else DigitsAndDots(s[1..])
  }

  /** Leading white space removed. */
  function TrimStart(s: string): (r: string)
    ensures |r| <= |s| && r == s[|s| - |r|..]
    ensures r == [] || !IsSpace(r[0])
    ensures forall i :: 0 <= i < |s| - |r| ==> IsSpace(s[i])
  {
    if s != [] && IsSpace(s[0]) then TrimStart(s[1..]) else s
  }

  /** Trailing white space removed. */
  function TrimEnd(s: string): (r: string)
    ensures |r| <= |s| && r == s[..|r|]
    ensures r == [] || !IsSpace(r[|r| - 1])
    ensures forall i :: |r| <= i < |s| ==> IsSpace(s[i])
  {
    if s != [] && IsSpace(s[|s| - 1]) then TrimEnd(s[..|s| - 1]) else s
  }

  /** `str.strip()` / `String.prototype.trim()`. */
  function Strip(s: string): (r: string)
    ensures r == [] || (!IsSpace(r[0]) && !IsSpace(r[|r| - 1]))
    ensures |r| <= |s|
  {
    TrimEnd(TrimStart(s))
  }

  function UpperChar(c: char): char {
    if IsLowerLetter(c) then (c as int - 32) as char else c
  }

  function LowerChar(c: char): char {
    if IsUpperLetter(c) then (c as int + 32) as char else c
  }

  /** `str.upper()` on ASCII letters. */
  function Upper(s: string): (r: string)
    ensures |r| == |s|
    ensures forall i :: 0 <= i < |s| ==> r[i] == UpperChar(s[i])
  {
    if s == [] then [] else [UpperChar(s[0])] + Upper(s[1..])
  }

  /** `str.lower()` / `String.prototype.toLowerCase()` on ASCII letters. */
  function Lower(s: string): (r: string)
    ensures |r| == |s|
    ensures forall i :: 0 <= i < |s| ==> r[i] == LowerChar(s[i])
  {
    if s == [] then [] else [LowerChar(s[0])] + Lower(s[1..])
  }

  predicate StartsWith(s: string, prefix: string) {
    |prefix| <= |s| && s[..|prefix|] == prefix
  }

  predicate EndsWith(s: string, suffix: string) {
    |suffix| <= |s| && s[|s| - |suffix|..] == suffix
  }

  /** Python's `sub in s`. */
  predicate Contains(s: string, sub: string) {
    StartsWith(s, sub) || (s != [] && Contains(s[1..], sub))
  }

  /** `str.rfind(c)`: the last index of `c`, or -1. */
  function LastIndexOf(s: string, c: char): (r: int)
    ensures -1 <= r < |s|
    ensures r >= 0 ==> s[r] == c
    ensures forall i :: r < i < |s| ==> s[i] != c
  {
    if s == [] then -1
    else if s[|s| - 1] == c then |s| - 1
    else LastIndexOf(s[..|s| - 1], c)
  }

  /** `str.count(c)` for a one-character `c`. */
  function CountChar(s: string, c: char): nat {
    if s == [] then 0 else (if s[0] == c then 1 else 0) + CountChar(s[1..], c)
  }

  /** `str.lstrip('0')`. */
  function StripLeadingZeros(s: string): (r: string)
    ensures |r| <= |s| && r == s[|s| - |r|..]
    ensures r == [] || r[0] != '0'
    ensures forall i :: 0 <= i < |s| - |r| ==> s[i] == '0'
  {
    if s != [] && s[0] == '0' then StripLeadingZeros(s[1..]) else s
  }

  /** `sep.join(xs)`. */
  function Join(xs: seq<string>, sep: string): string {
    if xs == [] then ""
    else if |xs| == 1 then xs[0]
    else xs[0] + sep + Join(xs[1..], sep)
  }

  /** The value of a string of decimal digits. */
  function DigitsValue(s: string): nat
    requires AllDigits(s)
  {
    if s == [] then 0 else DigitsValue(s[..|s| - 1]) * 10 + (s[|s| - 1] as int - '0' as int)
  }

  function DigitChar(d: nat): (c: char)
    requires d < 10
    ensures IsDigit(c) && c as int - '0' as int == d
  {
    ('0' as int + d) as char
  }

  /** `str(n)` for a natural number. */
  function NatToString(n: nat): (r: string)
    ensures r != [] && AllDigits(r)
    ensures DigitsValue(r) == n
    ensures n > 0 ==> r[0] != '0'
  {
    if n < 10 then [DigitChar(n)]
    else
      var r := NatToString(n / 10) + [DigitChar(n % 10)];
      assert r[..|r| - 1] == NatToString(n / 10);
      r
  }

  /** `str(n)` for an integer. */
  function IntToString(n: int): string {
    if n < 0 then "-" + NatToString(-n) else NatToString(n)
  }

  function Min(a: nat, b: nat): nat {
    if a <= b then a else b
  }

  /** The length of the run of characters satisfying `P` that starts at `q`. */
  function Span(s: string, q: nat, P: char -> bool): (n: nat)
    requires q <= |s|
    ensures q + n <= |s|
    ensures forall i :: q <= i < q + n ==> P(s[i])
    ensures q + n == |s| || !P(s[q + n])
    decreases |s| - q
  {
    if q == |s| || !P(s[q]) then 0 else 1 + Span(s, q + 1, P)
  }

  lemma {:induction false} TrimStartLower(s: string)
    ensures TrimStart(Lower(s)) == Lower(TrimStart(s))
  {
    if s == [] {
      assert Lower(s) == [];
    } else {
      var l := Lower(s);
      assert l[0] == LowerChar(s[0]);
      assert IsSpace(l[0]) == IsSpace(s[0]);
      assert l[1..] == Lower(s[1..]);
      if IsSpace(s[0]) {
        TrimStartLower(s[1..]);
      }
    }
  }

  lemma LowerCharSpace(c: char)
    ensures IsSpace(LowerChar(c)) == IsSpace(c)
  {
  }

  lemma LowerPrefix(s: string, n: nat)
    requires n <= |s|
    ensures Lower(s)[..n] == Lower(s[..n])
  {
  }

  lemma TrimEndDropsSpace(s: string)
    requires s != [] && IsSpace(s[|s| - 1])
    ensures TrimEnd(s) == TrimEnd(s[..|s| - 1])
  {
  }

  lemma TrimEndKeeps(s: string)
    requires s != [] && !IsSpace(s[|s| - 1])
    ensures TrimEnd(s) == s
  {
  }

  lemma {:induction false} TrimEndLower(s: string)
    ensures TrimEnd(Lower(s)) == Lower(TrimEnd(s))
  {
    if s != [] {
      var l := Lower(s);
      var n := |s| - 1;
      assert l[n] == LowerChar(s[n]);
      LowerCharSpace(s[n]);
      if IsSpace(s[n]) {
        TrimEndDropsSpace(s);
        TrimEndDropsSpace(l);
        LowerPrefix(s, n);
        TrimEndLower(s[..n]);
      } else {
        TrimEndKeeps(s);
        TrimEndKeeps(l);
      }
    }
  }

  /** Lower-casing and stripping can be done in either order. */
  lemma StripLower(s: string)
    ensures Strip(Lower(s)) == Lower(Strip(s))
  {
    TrimStartLower(s);
    TrimEndLower(TrimStart(s));
  }

  lemma {:induction false} TrimStartPadded(s: string)
    ensures TrimStart(s + " ") == if TrimStart(s) == [] then [] else TrimStart(s) + " "
  {
    var t := s + " ";
    if s == [] {
      assert TrimStart(t) == TrimStart(t[1..]) == TrimStart("");
    } else {
      assert t[0] == s[0] && t[1..] == s[1..] + " ";
      if IsSpace(s[0]) {
        assert TrimStart(t) == TrimStart(s[1..] + " ");
        assert TrimStart(s) == TrimStart(s[1..]);
        TrimStartPadded(s[1..]);
      } else {
        assert TrimStart(t) == t && TrimStart(s) == s;
      }
    }
  }

  lemma TrimEndPadded(s: string)
    ensures TrimEnd(s + " ") == TrimEnd(s)
  {
    assert (s + " ")[..|s|] == s;
  }

  /** White space around a string makes no difference to `strip`. */
  lemma StripPadded(s: string)
    ensures Strip(" " + s + " ") == Strip(s)
  {
    var t := " " + s + " ";
    assert t[1..] == s + " ";
    assert TrimStart(t) == TrimStart(s + " ");
    TrimStartPadded(s);
    if TrimStart(s) != [] {
      TrimEndPadded(TrimStart(s));
    }
  }
}
