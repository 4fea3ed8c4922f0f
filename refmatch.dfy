/** The comparison of the reference number read from a receipt with the one
    the student typed (`api_validate_receipt_reference` in app.py). */
module RefMatch {
  import opened Wrappers
  import opened Text
  import opened Extractor

  /** `re.sub(r'\D', '', s.strip())`. */
  function ReferenceDigits(s: string): (r: string)
    ensures AllDigits(r)
  {
    DigitsOnly(Strip(s))
  }

  /** The digits without leading zeros, or "0" when nothing is left:
      `digits.lstrip('0') or '0'`. */
  function CleanReference(s: string): (r: string)
    ensures r != [] && AllDigits(r)
    ensures r == "0" || r[0] != '0'
    ensures DigitsValue(r) == DigitsValue(ReferenceDigits(s))
  {
    Canonical(ReferenceDigits(s))
  }

  function Canonical(digits: string): (r: string)
    requires AllDigits(digits)
    ensures r != [] && AllDigits(r)
    ensures r == "0" || r[0] != '0'
    ensures DigitsValue(r) == DigitsValue(digits)
  {
    var d := StripLeadingZeros(digits);
    DigitsSuffix(digits, |digits| - |d|);
    StripLeadingZerosValue(digits);
    if d == [] then
      ZeroValue();
      "0"
    else d
  }

  lemma ZeroValue()
    ensures AllDigits("0") && DigitsValue("0") == 0
  {
    assert "0"[..0] == [];
  }

  lemma DigitsSuffix(s: string, k: nat)
    requires AllDigits(s) && k <= |s|
    ensures AllDigits(s[k..])
  {
    forall i | 0 <= i < |s| - k ensures IsDigit(s[k..][i]) { assert s[k..][i] == s[k + i]; }
  }

  /** The gate chain: no reference read, fewer than five or more than
      sixteen digits, or a length more than two away from the typed one
      refuse; otherwise the cleaned numbers must be equal. A low confidence
      only ever turns a mismatch into a mismatch, so the confidence never
      changes the result. */
  function CrossMatch(extracted: string, provided: string, confidence: real): (r: bool)
    ensures var e, p := CleanReference(extracted), CleanReference(provided);
      r <==> e == p && 5 <= |e| <= 16
  {
    var e := CleanReference(extracted);
    var p := CleanReference(provided);
    var lengthDiff := if |e| >= |p| then |e| - |p| else |p| - |e|;
    if e == [] || e == "0" then false
    else if |e| < 5 then false
    else if |e| > 16 then false
    else if lengthDiff > 2 then false
    else if e == p then true
    else if confidence < 0.3 then false
    else false
  }

  /** A match means both typed and read references have the same numeric
      value, between 10000 and 10^16 - 1. */
  lemma MatchMeansSameNumber(extracted: string, provided: string, confidence: real)
    requires CrossMatch(extracted, provided, confidence)
    ensures DigitsValue(ReferenceDigits(extracted)) == DigitsValue(ReferenceDigits(provided))
    ensures 10000 <= DigitsValue(ReferenceDigits(extracted))
  {
    var e := CleanReference(extracted);
    LeadingDigitBound(e);
  }

  /** A canonical number of at least five digits is at least 10000. */
  lemma {:induction false} LeadingDigitBound(s: string)
    requires AllDigits(s) && |s| >= 5 && s[0] != '0'
    ensures DigitsValue(s) >= 10000
  {
    NonZeroLeadingValue(s);
    Pow10AtLeast(|s| - 1);
  }

  lemma {:induction false} Pow10AtLeast(k: nat)
    requires k >= 4
    ensures Numbers.Pow10(k) >= 10000
  {
    if k > 4 { Pow10AtLeast(k - 1); }
  }

  lemma {:induction false} NonZeroLeadingValue(s: string)
    requires AllDigits(s) && |s| >= 1 && s[0] != '0'
    ensures DigitsValue(s) >= Numbers.Pow10(|s| - 1)
  {
    if |s| > 1 {
      var init := s[..|s| - 1];
      assert init[0] == s[0];
      NonZeroLeadingValue(init);
    }
  }

  lemma {:induction false} ZeroPrefixValue(x: string)
    requires AllDigits(x)
    ensures DigitsValue(['0'] + x) == DigitsValue(x)
    decreases |x|
  {
    if x != [] {
      var y := ['0'] + x;
      assert y[..|y| - 1] == ['0'] + x[..|x| - 1];
      ZeroPrefixValue(x[..|x| - 1]);
    } else {
      assert (['0'] + x)[..0] == [];
    }
  }

  lemma {:induction false} StripLeadingZerosValue(s: string)
    requires AllDigits(s)
    ensures DigitsValue(StripLeadingZeros(s)) == DigitsValue(s)
  {
    if s != [] && s[0] == '0' {
      var t := s[1..];
      assert AllDigits(t);
      assert StripLeadingZeros(s) == StripLeadingZeros(t);
      StripLeadingZerosValue(t);
      assert s == ['0'] + t;
      ZeroPrefixValue(t);
    }
  }

  datatype ReferenceCheck =
    | MissingInput                 // "Missing receipt image or reference number"
    | AiFailed(message: string)    // "AI processing failed: ..."
    | Checked(matches: bool, extractedDigits: string, providedDigits: string, aiSuccess: bool)

  /** The endpoint after its JSON body is read; `reply` is the outcome of the
      model call, which is made only when both inputs are present. */
  function ValidateReceiptReference(receiptImage: string, reference: string, reply: ModelReply): (r: ReferenceCheck)
    ensures r == MissingInput <==> receiptImage == [] || reference == []
    ensures r.AiFailed? <==> receiptImage != [] && reference != [] && reply.ReplyFailed?
    ensures r.Checked? ==> (r.aiSuccess <==> r.extractedDigits != [])
    ensures r.Checked? ==> AllDigits(r.extractedDigits) && AllDigits(r.providedDigits)
    ensures r.Checked? && r.matches ==>
      r.extractedDigits != [] && DigitsValue(r.extractedDigits) == DigitsValue(r.providedDigits)
    ensures r.Checked? ==>
      reply.ReplyOk?
      && r.extractedDigits == ReferenceDigits(reply.fields.reference)
      && r.providedDigits == ReferenceDigits(reference)
      && r.matches == CrossMatch(reply.fields.reference, reference, reply.fields.confidence)
  {
    if receiptImage == [] || reference == [] then MissingInput
    else
      match reply
      case ReplyFailed(message) => AiFailed(message)
      case ReplyOk(fields) => CheckedReply(fields.reference, reference, fields.confidence)
  }

  /** The response after a successful model call: the cross-match and both
      digit filters. */
  function CheckedReply(extracted: string, reference: string, confidence: real): (r: ReferenceCheck)
    ensures r.Checked? && r.extractedDigits == ReferenceDigits(extracted)
    ensures r.providedDigits == ReferenceDigits(reference)
    ensures r.matches == CrossMatch(extracted, reference, confidence)
    ensures r.aiSuccess <==> r.extractedDigits != []
    ensures r.matches ==>
      r.extractedDigits != [] && DigitsValue(r.extractedDigits) == DigitsValue(r.providedDigits)
  {
    var matches := CrossMatch(extracted, reference, confidence);
    var e := ReferenceDigits(extracted);
    if matches then
      MatchMeansSameNumber(extracted, reference, confidence);
      Checked(true, e, ReferenceDigits(reference), e != [])
    else Checked(false, e, ReferenceDigits(reference), e != [])
  }
}
