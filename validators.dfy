/** The field validators of app/utils/validators.py. The Python arguments are
    untyped, so a value is None, a string, or some other object of which only
    its truthiness matters. The raising validators return the message of the
    `ValidationError` they would raise. */
module Validators {
  import opened Wrappers
  import opened Text

  datatype PyValue = PyNone | PyStr(s: string) | PyOther(truthy: bool)

  predicate Falsy(v: PyValue) {
    match v
    case PyNone => true
    case PyStr(s) => s == []
    case PyOther(t) => !t
  }

  /** The outcome of a validator that raises instead of returning. */
  datatype Check = Passed | Raised(message: string)

  // ---------------------------------------------------------------------
  // validate_email

  /** `[a-zA-Z0-9._%+-]` */
  predicate IsLocalChar(c: char) {
    IsLetter(c) || IsDigit(c) || c == '.' || c == '_' || c == '%' || c == '+' || c == '-'
  }

  /** `[a-zA-Z0-9.-]` */
  predicate IsDomainChar(c: char) {
    IsLetter(c) || IsDigit(c) || c == '.' || c == '-'
  }

  predicate AllLetters(s: string) {
    forall i :: 0 <= i < |s| ==> IsLetter(s[i])
  }

  predicate AllDomainChars(s: string) {
    forall i :: 0 <= i < |s| ==> IsDomainChar(s[i])
  }

  predicate AllLocalChars(s: string) {
    forall i :: 0 <= i < |s| ==> IsLocalChar(s[i])
  }

  /** The pattern `^[a-zA-Z0-9._%+-]+@[a-zA-Z0-9.-]+\.[a-zA-Z]{2,}$` read
      with the '@' at `at` and the last '.' at `dot`. */
  predicate EmailSplitAt(t: string, at: int, dot: int) {
    0 < at && at + 1 < dot && dot + 2 < |t|
    && AllLocalChars(t[..at]) && t[at] == '@'
    && AllDomainChars(t[at + 1..dot]) && t[dot] == '.'
    && AllLetters(t[dot + 1..])
  }

  /** What the pattern accepts, stated as the regex reads: some split. */
  ghost predicate EmailShape(t: string) {
    exists at, dot :: EmailSplitAt(t, at, dot)
  }

  /** A direct reading of the pattern: the local part runs up to the first
      character outside its class, which must be the '@'; the rest holds
      only domain characters, and after its last dot come two or more letters. */
  function MatchesEmail(t: string): (r: bool) {
    var at := Span(t, 0, IsLocalChar);
    if at == 0 || at == |t| || t[at] != '@' then false
    else
      var d := t[at + 1..];
      var j := LastIndexOf(d, '.');
      AllDomainChars(d) && j >= 1 && |d| - j - 1 >= 2 && AllLetters(d[j + 1..])
  }

  /** A string the direct reading accepts has a split the pattern accepts. */
  lemma MatchesEmailSound(t: string)
    requires MatchesEmail(t)
    ensures EmailShape(t)
  {
    var at := Span(t, 0, IsLocalChar);
    var d := t[at + 1..];
    var j := LastIndexOf(d, '.');
    var dot := at + 1 + j;
    assert AllLocalChars(t[..at]) by {
      forall i | 0 <= i < at ensures IsLocalChar(t[..at][i]) { assert t[..at][i] == t[i]; }
    }
    assert t[at + 1..dot] == d[..j];
    assert t[dot + 1..] == d[j + 1..];
    assert EmailSplitAt(t, at, dot);
  }

  /** The '@' of any accepted split is the first character outside the
      local-part class. */
  lemma SplitAtIsSpan(t: string, at: int, dot: int)
    requires EmailSplitAt(t, at, dot)
    ensures at == Span(t, 0, IsLocalChar)
  {
    var n := Span(t, 0, IsLocalChar);
    assert forall i :: 0 <= i < at ==> t[..at][i] == t[i];
    assert !IsLocalChar(t[at]);
  }

  /** Any split the pattern accepts puts the dot at the last dot. */
  lemma SplitDotIsLast(t: string, at: int, dot: int)
    requires EmailSplitAt(t, at, dot)
    ensures var d := t[at + 1..];
      AllDomainChars(d) && LastIndexOf(d, '.') == dot - at - 1 && AllLetters(d[dot - at..])
  {
    var d := t[at + 1..];
    var j := dot - at - 1;
    assert d[j] == '.';
    assert d[..j] == t[at + 1..dot];
    assert d[j + 1..] == t[dot + 1..];
    assert AllDomainChars(d) by {
      forall i | 0 <= i < |d| ensures IsDomainChar(d[i]) {
        if i < j { assert d[i] == d[..j][i]; }
        else if i > j { assert d[i] == d[j + 1..][i - j - 1]; }
      }
    }
    forall i | j < i < |d| ensures d[i] != '.' {
      assert d[i] == d[j + 1..][i - j - 1];
    }
  }

  /** A split the pattern accepts makes the direct reading accept. */
  lemma MatchesEmailComplete(t: string, at: int, dot: int)
    requires EmailSplitAt(t, at, dot)
    ensures MatchesEmail(t)
  {
    SplitAtIsSpan(t, at, dot);
    SplitDotIsLast(t, at, dot);
  }

  /** The direct reading agrees with the pattern on every string. */
  lemma MatchesEmailShape(t: string)
    ensures MatchesEmail(t) <==> EmailShape(t)
  {
    if MatchesEmail(t) {
      MatchesEmailSound(t);
    }
    if EmailShape(t) {
      var at, dot :| EmailSplitAt(t, at, dot);
      MatchesEmailComplete(t, at, dot);
    }
  }

  /** `validate_email`: false for a falsy or non-string value, otherwise
      whether the stripped string has the shape local@domain.tld. */
  function ValidateEmail(email: PyValue): (r: bool)
    ensures r <==> email.PyStr? && email.s != [] && EmailShape(Strip(email.s))
  {
    if Falsy(email) || !email.PyStr? then false
    else
      MatchesEmailShape(Strip(email.s));
      MatchesEmail(Strip(email.s))
  }

  // ---------------------------------------------------------------------
  // The other validators

  const MinPasswordLength: nat := 6

  /** `validate_password`. */
  function ValidatePassword(password: PyValue): (r: bool)
    ensures r <==> password.PyStr? && |password.s| >= MinPasswordLength
  {
    if Falsy(password) || !password.PyStr? then false
    else |password.s| >= MinPasswordLength
  }

  /** `validate_required`. */
  function ValidateRequired(value: PyValue, fieldName: string): (r: Check)
    ensures r.Raised? <==> value.PyNone? || (value.PyStr? && Strip(value.s) == [])
    ensures r.Raised? ==> r.message == fieldName + " is required"
  {
    if value.PyNone? || (value.PyStr? && Strip(value.s) == []) then Raised(fieldName + " is required")
    else Passed
  }

  /** `validate_string_length`; a `max_length` of None or 0 is no bound. */
  function ValidateStringLength(value: PyValue, minLength: int, maxLength: Option<int>, fieldName: string): (r: Check)
    ensures r == Passed <==>
      value.PyStr? && |value.s| >= minLength
      && (maxLength.None? || maxLength.value == 0 || |value.s| <= maxLength.value)
    ensures !value.PyStr? ==> r == Raised(fieldName + " must be a string")
  {
    if !value.PyStr? then Raised(fieldName + " must be a string")
    else if |value.s| < minLength then
      Raised(fieldName + " must be at least " + IntToString(minLength) + " characters")
    else if maxLength.Some? && maxLength.value != 0 && |value.s| > maxLength.value then
      Raised(fieldName + " must be no more than " + IntToString(maxLength.value) + " characters")
    else Passed
  }

  /** `validate_phone_number`: seven to fifteen digits once everything else
      is removed. */
  function ValidatePhoneNumber(phone: PyValue): (r: bool)
    ensures r <==> phone.PyStr? && 7 <= |DigitsOnly(phone.s)| <= 15
  {
    if Falsy(phone) || !phone.PyStr? then false
    else
      var digits := DigitsOnly(phone.s);
      7 <= |digits| <= 15
  }

  /** `validate_file_extension`: the lower-cased text after the last dot,
      looked up in the allowed set. */
  function ValidateFileExtension(filename: string, allowed: set<string>): (r: bool)
    ensures r ==> '.' in filename
    ensures r <==> exists k :: 0 <= k < |filename| && filename[k] == '.' && LastDotAt(filename, k)
                               && Lower(filename[k + 1..]) in allowed
  {
    var k := LastIndexOf(filename, '.');
    if k < 0 then false
    else
      LastDotOnly(filename, k);
      Lower(filename[k + 1..]) in allowed
  }

  /** A string has at most one last dot. */
  lemma LastDotOnly(s: string, k: int)
    requires LastDotAt(s, k)
    ensures forall j :: LastDotAt(s, j) ==> j == k
  {
  }

  /** `k` is the position of the last dot. */
  predicate LastDotAt(s: string, k: int) {
    0 <= k < |s| && s[k] == '.' && forall i :: k < i < |s| ==> s[i] != '.'
  }

  /** The extension is matched without regard to case and only the last one
      counts: "scan.tar.PDF" passes where "pdf" is allowed. */
  lemma FileExtensionExample()
    ensures ValidateFileExtension("scan.tar.PDF", {"pdf"})
    ensures !ValidateFileExtension("scan.pdf.tar", {"pdf"})
    ensures !ValidateFileExtension("pdf", {"pdf"})
  {
    var good := "scan.tar.PDF";
    assert LastDotAt(good, 8);
    assert good[9..] == "PDF";
    assert Lower("PDF") == "pdf";
    var bad := "scan.pdf.tar";
    assert LastDotAt(bad, 8);
    assert bad[9..] == "tar";
    assert Lower("tar") == "tar";
    forall k | LastDotAt(bad, k) ensures k == 8 { }
    assert forall i :: 0 <= i < 3 ==> "pdf"[i] != '.';
  }
}
