/** The ordered accept/reject rules applied to the fields read from a payment
    receipt (`_validate_payment` in app.py). */
module Payment {
  import opened Wrappers
  import opened Text

  /** The amount the clearance fee is checked against when none is given. */
  const DefaultExpectedAmount: real := 50.0
  /** How far the receipt amount may be from the expected one. */
  const AmountTolerance: real := 0.01
  /** The model confidence below which a receipt is refused. */
  const MinConfidence: real := 0.85

  datatype Rejection =
    | BadReference                                  // "Reference number must be 7-16 digits"
    | InvalidAmount                                 // "Invalid amount"
    | AmountMismatch(found: real, expected: real)   // "Amount mismatch: found ..., expected ..."
    | LowConfidence(confidence: real)               // "Low confidence: ..."

  datatype Verdict = Accepted | Rejected(reason: Rejection)

  function Abs(x: real): (r: real)
    ensures r >= 0.0 && (r == x || r == -x)
  {
    if x < 0.0 then -x else x
  }

  predicate AmountMatches(amount: real, expected: real) {
    Abs(amount - expected) <= AmountTolerance
  }

  /** The rules in the order the source applies them; the first one that
      fails decides the reason. A missing `reference_number` is the empty string. */
  function ValidatePayment(amount: Option<real>, reference: string, confidence: real, expected: real): (v: Verdict)
    ensures v == Accepted <==>
      IsReferenceDigits(reference) && amount.Some? && amount.value > 0.0
      && AmountMatches(amount.value, expected) && confidence >= MinConfidence
    ensures v == Rejected(BadReference) <==> !IsReferenceDigits(reference)
    ensures v == Rejected(InvalidAmount) <==>
      IsReferenceDigits(reference) && (amount.None? || amount.value <= 0.0)
    ensures v.Rejected? && v.reason.AmountMismatch? <==>
      IsReferenceDigits(reference) && amount.Some? && amount.value > 0.0 && !AmountMatches(amount.value, expected)
    ensures v.Rejected? && v.reason.AmountMismatch? ==> v.reason == AmountMismatch(amount.value, expected)
    ensures v.Rejected? && v.reason.LowConfidence? ==> v.reason == LowConfidence(confidence) && confidence < MinConfidence
  {
    if !IsReferenceDigits(reference) then Rejected(BadReference)
    else if amount.None? || amount.value <= 0.0 then Rejected(InvalidAmount)
    else if Abs(amount.value - expected) > AmountTolerance then Rejected(AmountMismatch(amount.value, expected))
    else if confidence < MinConfidence then Rejected(LowConfidence(confidence))
    else Accepted
  }

  /** An accepted amount lies within one centavo of the expected amount, so an
      accepted receipt for the default fee shows between 49.99 and 50.01. */
  lemma AcceptedAmountInRange(amount: Option<real>, reference: string, confidence: real, expected: real)
    requires ValidatePayment(amount, reference, confidence, expected) == Accepted
    ensures amount.Some? && expected - AmountTolerance <= amount.value <= expected + AmountTolerance
    ensures IsReferenceDigits(reference) && confidence >= MinConfidence
  {
  }
}
