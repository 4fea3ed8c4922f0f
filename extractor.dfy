/** Recovery of the payment fields from the text a vision model returns for a
    receipt image (`_extract_ref_amount_from_gemini_text` and
    `_manual_extract_from_text` in app.py), and the outcome of a failed model
    call (`_gemini_extract`).

    `json.loads` is a parameter: the model only assumes that it either
    produces a value or fails with a decode error or some other error. The
    regular expressions of the source are written out as functions that
    follow Python's leftmost, backtracking match. */
module Extractor {
  import opened Wrappers
  import opened Text
  import opened Numbers

  /** A value produced by `json.loads`. A number carries its value and the
      text Python's `str()` gives for it ("50.0", "50", "1e+20"). */
  datatype JsonValue =
    | JNull
    | JBool(b: bool)
    | JNum(value: real, repr: string)
    | JStr(s: string)
    | JArr(items: seq<JsonValue>)
    | JObj(fields: map<string, JsonValue>)

  datatype LoadResult = Parsed(v: JsonValue) | DecodeError | OtherError

  /** The dictionary both extractors return. */
  datatype Extraction = Extraction(amount: Option<real>, reference: string, confidence: real, rawText: string)

  /** Python's `str(v)`: a string is itself, a number its JSON spelling, null
      and the booleans their Python names. The `repr` of a list or dictionary
      is not modelled and stands as "". */
  function PyStr(v: JsonValue): (r: string)
    ensures v.JStr? ==> r == v.s
    ensures v.JNum? ==> r == v.repr
    ensures v.JNull? ==> r == "None"
    ensures v.JBool? ==> r == (if v.b then "True" else "False")
  {
    match v
    case JNull => "None"
    case JBool(b) => if b then "True" else "False"
    case JNum(_, repr) => repr
    case JStr(s) => s
    case JArr(_) => ""
    case JObj(_) => ""
  }

  /** Python truthiness. */
  predicate Truthy(v: JsonValue) {
    match v
    case JNull => false
    case JBool(b) => b
    case JNum(x, _) => x != 0.0
    case JStr(s) => s != []
    case JArr(items) => items != []
    case JObj(fields) => fields != map[]
  }

  /** Python's `float(v)`; None is the exception: a string `float` cannot
      read, or null, a list or a dictionary (a TypeError). */
  function PyFloat(v: JsonValue): (r: Option<real>)
    ensures v.JNum? ==> r == Some(v.value)
    ensures v.JStr? ==> r == ParseFloat(v.s)
    ensures v.JBool? ==> r == Some(if v.b then 1.0 else 0.0)
    ensures v.JNull? || v.JArr? || v.JObj? ==> r.None?
  {
    match v
    case JNum(x, _) => Some(x)
    case JStr(s) => ParseFloat(s)
    case JBool(b) => Some(if b then 1.0 else 0.0)
    case _ => None
  }

  /** `dict.get(key)`. */
  function Get(fields: map<string, JsonValue>, key: string): Option<JsonValue> {
    if key in fields then Some(fields[key]) else None
  }

  /** `str(d.get(key) or '')`. */
  function StrOrEmpty(fields: map<string, JsonValue>, key: string): string {
    var v := Get(fields, key);
    if v.Some? && Truthy(v.value) then PyStr(v.value) else ""
  }

  /** The class `[\s#:]` between a label and the digits. */
  predicate IsGap(c: char) {
    IsSpace(c) || c == '#' || c == ':'
  }

  // ---------------------------------------------------------------------
  // The reference-number patterns searched in `raw_text`

  /** `(\d{7,16})` at `q`, greedy: the first sixteen digits of a run of at
      least seven. */
  function DigitsAt(s: string, q: nat): (r: Option<string>)
    requires q <= |s|
    ensures r.Some? ==> IsReferenceDigits(r.value)
    ensures r.Some? <==> Span(s, q, IsDigit) >= 7
  {
    var k := Span(s, q, IsDigit);
    if k < 7 then None
    else
      var g := s[q..q + Min(k, 16)];
      assert forall i :: 0 <= i < |g| ==> g[i] == s[q + i];
      Some(g)
  }

  /** A label matched case-insensitively (the patterns use `re.IGNORECASE`). */
  predicate LabelAt(s: string, p: nat, word: string) {
    p + |word| <= |s| && Upper(s[p..p + |word|]) == word
  }

  /** `(?:L1|L2|...)[\s#:]*(\d{7,16})` tried at `p`: the alternatives in
      order, each followed by all the gap characters there are. */
  function LabeledAt(s: string, p: nat, labels: seq<string>): (r: Option<string>)
    requires p <= |s|
    ensures r.Some? ==> IsReferenceDigits(r.value)
  {
    if labels == [] then None
    else
      var g :=
        if LabelAt(s, p, labels[0]) then
          var q := p + |labels[0]|;
          DigitsAt(s, q + Span(s, q, IsGap))
        else None;
      if g.Some? then g else LabeledAt(s, p, labels[1..])
  }

  /** `[\s\S]*?(\d{7,16})` from `q`: the nearest place at or after `q` where
      seven digits follow. */
  function FirstDigitsFrom(s: string, q: nat): (r: Option<string>)
    requires q <= |s|
    ensures r.Some? ==> IsReferenceDigits(r.value)
    decreases |s| - q
  {
    var g := DigitsAt(s, q);
    if g.Some? then g
    else if q == |s| then None
    else FirstDigitsFrom(s, q + 1)
  }

  /** `\b(\d{7,16})\b` at `p`: a whole run of seven to sixteen digits with no
      word character on either side. */
  function BareAt(s: string, p: nat): (r: Option<string>)
    requires p <= |s|
    ensures r.Some? ==> IsReferenceDigits(r.value)
  {
    var k := Span(s, p, IsDigit);
    if (p == 0 || !IsWordChar(s[p - 1])) && 7 <= k <= 16 && (p + k == |s| || !IsWordChar(s[p + k])) then
      var g := s[p..p + k];
      assert forall i :: 0 <= i < |g| ==> g[i] == s[p + i];
      Some(g)
    else None
  }

  datatype RefPattern =
    | Labeled(labels: seq<string>)   // (?:L1|...)[\s#:]*(\d{7,16})
    | AfterLabel(word: string)      // (?:L)[\s\S]*?(\d{7,16})
    | BareRun                        // \b(\d{7,16})\b

  /** The patterns in priority order: a REF/REFERENCE/NO./NUMBER label, the
      word ORIGINAL, a RECEIPT/TXN/TRANSACTION label, any bare number. */
  const ReferencePatterns: seq<RefPattern> := [
    Labeled(["REF", "REFERENCE", "NO.", "NUMBER"]),
    AfterLabel("ORIGINAL"),
    Labeled(["RECEIPT", "TXN", "TRANSACTION"]),
    BareRun
  ]

  /** The group of a match of `pat` that starts at `p`. */
  function MatchAt(pat: RefPattern, s: string, p: nat): (r: Option<string>)
    requires p <= |s|
    ensures r.Some? ==> IsReferenceDigits(r.value)
  {
    match pat
    case Labeled(labels) => LabeledAt(s, p, labels)
    case AfterLabel(word) => if LabelAt(s, p, word) then FirstDigitsFrom(s, p + |word|) else None
    case BareRun => BareAt(s, p)
  }

  /** The group of the leftmost match at or after `p`: `re.findall(pat, s)[0]`
      when `p` is 0, None when `findall` finds nothing. */
  function Search(pat: RefPattern, s: string, p: nat): (r: Option<string>)
    requires p <= |s|
    ensures r.Some? ==> IsReferenceDigits(r.value)
    decreases |s| - p
  {
    var m := MatchAt(pat, s, p);
    if m.Some? then m
    else if p == |s| then None
    else Search(pat, s, p + 1)
  }

  /** The first match of the first pattern that matches anywhere in `s`,
      or "" when none does. */
  function FirstPatternMatch(pats: seq<RefPattern>, s: string): (r: string)
    ensures r == [] || IsReferenceDigits(r)
  {
    if pats == [] then ""
    else
      match Search(pats[0], s, 0)
      case Some(g) => g
      case None => FirstPatternMatch(pats[1..], s)
  }

  /** Pattern `i` has a match and no pattern before it does. */
  predicate FirstToMatch(pats: seq<RefPattern>, s: string, i: int) {
    0 <= i < |pats| && Search(pats[i], s, 0).Some?
    && forall j :: 0 <= j < i ==> Search(pats[j], s, 0).None?
  }

  /** The source's loop over the patterns, which stops at the first one that
      has a match: the result is that pattern's first match, and "" exactly
      when no pattern matches. */
  method SelectReference(rawText: string) returns (reference: string)
    ensures reference == FirstPatternMatch(ReferencePatterns, rawText)
    ensures reference == "" <==>
      forall i :: 0 <= i < |ReferencePatterns| ==> Search(ReferencePatterns[i], rawText, 0).None?
    ensures forall i :: FirstToMatch(ReferencePatterns, rawText, i) ==> reference == Search(ReferencePatterns[i], rawText, 0).value
  {
    var pats := ReferencePatterns;
    reference := "";
    var i := 0;
    while i < |pats|
      invariant 0 <= i <= |pats|
      invariant forall j :: 0 <= j < i ==> Search(pats[j], rawText, 0).None?
      invariant FirstPatternMatch(pats, rawText) == FirstPatternMatch(pats[i..], rawText)
    {
      var matches := Search(pats[i], rawText, 0);
      if matches.Some? {
        reference := matches.value;
        return;
      }
      assert pats[i..][1..] == pats[i + 1..];
      i := i + 1;
    }
  }

  // ---------------------------------------------------------------------
  // The parsed path

  /** `str(d.get('reference_number') or '')` digit-filtered, when it has
      seven to sixteen digits; otherwise the first pattern match in `raw_text`. */
  function ChooseReference(fields: map<string, JsonValue>): (r: string)
    ensures r == "" || IsReferenceDigits(r)
    ensures IsReferenceDigits(DigitsOnly(StrOrEmpty(fields, "reference_number")))
      ==> r == DigitsOnly(StrOrEmpty(fields, "reference_number"))
    ensures !IsReferenceDigits(DigitsOnly(StrOrEmpty(fields, "reference_number")))
      ==> r == FirstPatternMatch(ReferencePatterns, StrOrEmpty(fields, "raw_text"))
  {
    var digits := DigitsOnly(StrOrEmpty(fields, "reference_number"));
    if digits != [] && 7 <= |digits| <= 16 then digits
    else FirstPatternMatch(ReferencePatterns, StrOrEmpty(fields, "raw_text"))
  }

  /** The amount: the digits and dots of `str(d['amount'])` read by `float`,
      None when the key is missing or null or `float` fails. The sign is
      filtered out with everything else, so the amount is never negative. */
  function ObjectAmount(fields: map<string, JsonValue>): (r: Option<real>)
    ensures r.Some? ==> r.value >= 0.0
    ensures r.Some? ==> Get(fields, "amount").Some? && Get(fields, "amount").value != JNull
    ensures Get(fields, "amount").Some? && Get(fields, "amount").value != JNull ==>
      var d := DigitsAndDots(PyStr(Get(fields, "amount").value));
      (r.Some? <==> CountChar(d, '.') <= 1 && CountChar(d, '.') < |d|)
  {
    var v := Get(fields, "amount");
    if v.None? || v.value == JNull then None
    else
      var d := DigitsAndDots(PyStr(v.value));
      ParseDigitsAndDots(d);
      ParseFloat(d)
  }

  /** The second half of `_extract_ref_amount_from_gemini_text`, on whatever
      `json.loads` produced. A value that is not an object has no `get`, and a
      confidence `float` cannot read raises: both end in None. */
  function FromParsed(data: JsonValue): (r: Option<Extraction>)
    ensures r.Some? ==> data.JObj?
    ensures r.Some? ==> r.value.reference == "" || IsReferenceDigits(r.value.reference)
    ensures r.Some? && r.value.amount.Some? ==> r.value.amount.value >= 0.0
  {
    match data
    case JObj(fields) =>
      var c := Get(fields, "confidence_score");
      var confidence := if c.Some? && Truthy(c.value) then PyFloat(c.value) else Some(0.0);
      if confidence.None? then None
      else Some(Extraction(ObjectAmount(fields), ChooseReference(fields), confidence.value, StrOrEmpty(fields, "raw_text")))
    case _ => None
  }

  // ---------------------------------------------------------------------
  // The manual path

  /** The class `[^",}]` of a field value written without quotes. */
  predicate IsBareValueChar(c: char) {
    c != '"' && c != ',' && c != '}'
  }

  predicate IsNotQuote(c: char) {
    c != '"'
  }

  datatype FieldPattern =
    | Loose(key: string)    // "key":\s*"?([^",}]+)"?
    | Quoted(key: string)   // "key":\s*"([^"]*)

  predicate KeyAt(s: string, p: nat, key: string) {
    p + |key| <= |s| && s[p..p + |key|] == key
  }

  /** The group of a match of `pat` that starts at `p`. For `Loose`, after
      the white space: a quote followed by a value character opens the
      value; otherwise a value character starts it; otherwise the regex
      backtracks into the white space and the group is its last character. */
  function FieldAt(pat: FieldPattern, s: string, p: nat): (r: Option<string>)
    requires p <= |s|
  {
    var key := pat.key;
    if !KeyAt(s, p, key) then None
    else
      var q := p + |key|;
      var w := Span(s, q, IsSpace);
      var c := q + w;
      match pat
      case Loose(_) =>
        if c + 1 < |s| && s[c] == '"' && IsBareValueChar(s[c + 1]) then
          Some(s[c + 1..c + 1 + Span(s, c + 1, IsBareValueChar)])
        else if c < |s| && IsBareValueChar(s[c]) then
          Some(s[c..c + Span(s, c, IsBareValueChar)])
        else if w > 0 then
          Some(s[c - 1..c])
        else None
      case Quoted(_) =>
        if c < |s| && s[c] == '"' then Some(s[c + 1..c + 1 + Span(s, c + 1, IsNotQuote)]) else None
  }

  /** `re.search(pat, s)` from `p`: the group of the leftmost match. */
  function SearchField(pat: FieldPattern, s: string, p: nat): Option<string>
    requires p <= |s|
    decreases |s| - p
  {
    var m := FieldAt(pat, s, p);
    if m.Some? then m
    else if p == |s| then None
    else SearchField(pat, s, p + 1)
  }

  /** `_manual_extract_from_text`. Nothing in it can raise, so it always
      produces a dictionary: the reference is all digits (of any length), a
      found amount is never negative, and the confidence falls back to 0.0. */
  function ManualExtract(text: string): (r: Extraction)
    ensures AllDigits(r.reference)
    ensures r.amount.Some? ==> r.amount.value >= 0.0
    ensures SearchField(Loose("\"amount\":"), text, 0).None? ==> r.amount.None?
    ensures SearchField(Loose("\"reference_number\":"), text, 0).None? ==> r.reference == ""
    ensures SearchField(Quoted("\"raw_text\":"), text, 0).None? ==> r.rawText == ""
    ensures SearchField(Loose("\"confidence_score\":"), text, 0).None? ==> r.confidence == 0.0
    // what a match recovers
    ensures SearchField(Loose("\"amount\":"), text, 0).Some? ==>
      var d := DigitsAndDots(SearchField(Loose("\"amount\":"), text, 0).value);
      r.amount == (if d == [] then None else ParseFloat(d))
    ensures SearchField(Loose("\"reference_number\":"), text, 0).Some? ==>
      r.reference == DigitsOnly(SearchField(Loose("\"reference_number\":"), text, 0).value)
    ensures SearchField(Quoted("\"raw_text\":"), text, 0).Some? ==>
      r.rawText == SearchField(Quoted("\"raw_text\":"), text, 0).value
    ensures SearchField(Loose("\"confidence_score\":"), text, 0).Some? ==>
      r.confidence == ParseFloat(SearchField(Loose("\"confidence_score\":"), text, 0).value).GetOr(0.0)
  {
    var amount :=
      match SearchField(Loose("\"amount\":"), text, 0)
      case None => None
      case Some(g) =>
        var d := DigitsAndDots(g);
        (ParseDigitsAndDots(d); if d == [] then None else ParseFloat(d));
    var reference :=
      match SearchField(Loose("\"reference_number\":"), text, 0)
      case None => ""
      case Some(g) => DigitsOnly(g);
    var rawText :=
      match SearchField(Quoted("\"raw_text\":"), text, 0)
      case None => ""
      case Some(g) => g;
    var confidence :=
      match SearchField(Loose("\"confidence_score\":"), text, 0)
      case None => 0.0
      case Some(g) => ParseFloat(g).GetOr(0.0);
    Extraction(amount, reference, confidence, rawText)
  }

  /** A found amount field yields a number exactly when its digits and dots
      hold at most one dot and at least one digit. */
  lemma ManualAmount(text: string)
    requires SearchField(Loose("\"amount\":"), text, 0).Some?
    ensures var d := DigitsAndDots(SearchField(Loose("\"amount\":"), text, 0).value);
      ManualExtract(text).amount.Some? <==> CountChar(d, '.') <= 1 && CountChar(d, '.') < |d|
  {
    var d := DigitsAndDots(SearchField(Loose("\"amount\":"), text, 0).value);
    ParseDigitsAndDots(d);
  }

  // ---------------------------------------------------------------------
  // Fences, repair and the whole extractor

  const JsonFence: string := "```json"
  const Fence: string := "```"
  const RawTextKey: string := "\"raw_text\":"

  /** Surrounding white space, a leading "```json" and a trailing "```" removed. */
  function StripFences(s: string): (r: string)
    ensures r == [] || (!IsSpace(r[0]) && !IsSpace(r[|r| - 1]))
  {
    Strip(DropFence(DropJsonFence(Strip(s))))
  }

  function DropJsonFence(t: string): string {
    if StartsWith(t, JsonFence) then t[7..] else t
  }

  function DropFence(t: string): string {
    if EndsWith(t, Fence) then t[..|t| - 3] else t
  }

  /** The one-shot repair tried after the first decode error: a text cut off
      inside `raw_text` is closed after its last quote, one with more opening
      than closing braces gains one brace, and anything else is left alone. */
  function Repair(text: string): (r: string)
    // a text that already ends like JSON is left alone
    ensures (EndsWith(text, "\"") || EndsWith(text, "}") || EndsWith(text, "]")) ==> r == text
    // without a raw_text key it gains one brace exactly when it is short of closing braces
    ensures !Contains(text, RawTextKey) ==>
      r == (if !EndsWith(text, "\"") && !EndsWith(text, "}") && !EndsWith(text, "]")
               && CountChar(text, '{') > CountChar(text, '}') then text + "}" else text)
  {
    if !EndsWith(text, "\"") && !EndsWith(text, "}") && !EndsWith(text, "]") then
      if Contains(text, RawTextKey) then
        var lastQuote := LastIndexOf(text, '"');
        if lastQuote > 0 then
          var afterQuote := Strip(text[lastQuote + 1..]);
          if !EndsWith(afterQuote, "}") then text[..lastQuote + 1] + "\"}" else text
        else text
      else if CountChar(text, '{') > CountChar(text, '}') then text + "}"
      else text
    else text
  }

  /** `_extract_ref_amount_from_gemini_text`: parse, else repair and parse,
      else extract by hand from the repaired text. Only an error other than a
      decode error, a parsed value that is not an object, or an unreadable
      confidence give None. */
  function ExtractFromText(jsonText: string, loads: string -> LoadResult): (r: Option<Extraction>)
    ensures r.Some? ==> r.value.amount.Some? ==> r.value.amount.value >= 0.0
    ensures r.Some? ==> AllDigits(r.value.reference)
    ensures loads(StripFences(jsonText)).Parsed? ==> r == FromParsed(loads(StripFences(jsonText)).v)
    ensures loads(StripFences(jsonText)).OtherError? ==> r.None?
    // after a decode error the repaired text is parsed, and on a second
    // decode error it is extracted by hand
    ensures var first, second := loads(StripFences(jsonText)), loads(Repair(StripFences(jsonText)));
      first.DecodeError? ==>
        (second.Parsed? ==> r == FromParsed(second.v))
        && (second.OtherError? ==> r.None?)
        && (second.DecodeError? ==> r == Some(ManualExtract(Repair(StripFences(jsonText)))))
  {
    var text := StripFences(jsonText);
    var repaired := Repair(text);
    AfterLoads(loads(text), loads(repaired), repaired)
  }

  /** The decision on the two parse attempts: the first parse, or on a decode
      error the parse of the repaired text, or the hand extraction from it. */
  function AfterLoads(first: LoadResult, second: LoadResult, repaired: string): (r: Option<Extraction>)
    ensures r.Some? ==> r.value.amount.Some? ==> r.value.amount.value >= 0.0
    ensures r.Some? ==> AllDigits(r.value.reference)
    ensures first.Parsed? ==> r == FromParsed(first.v)
    ensures first.OtherError? ==> r.None?
    // after a decode error the repaired text decides
    ensures first.DecodeError? && second.Parsed? ==> r == FromParsed(second.v)
    ensures first.DecodeError? && second.OtherError? ==> r.None?
    ensures first.DecodeError? && second.DecodeError? ==> r == Some(ManualExtract(repaired))
  {
    match first
    case Parsed(data) => FromParsed(data)
    case OtherError => None
    case DecodeError =>
      match second
      case Parsed(data) => FromParsed(data)
      case OtherError => None
      case DecodeError => Some(ManualExtract(repaired))
  }

  // ---------------------------------------------------------------------
  // Lemmas

  lemma StripOfTrimmed(s: string)
    requires s == [] || (!IsSpace(s[0]) && !IsSpace(s[|s| - 1]))
    ensures Strip(s) == s
  {
  }

  lemma StripOfFenced(inner: string)
    ensures Strip(JsonFence + inner + Fence) == JsonFence + inner + Fence
  {
    var s := JsonFence + inner + Fence;
    assert s[0] == '`' && s[|s| - 1] == '`';
    StripOfTrimmed(s);
  }

  lemma DropJsonFenceOfFenced(inner: string)
    ensures DropJsonFence(JsonFence + inner + Fence) == inner + Fence
  {
    var s := JsonFence + inner + Fence;
    assert s[..7] == JsonFence;
    assert s[7..] == inner + Fence;
  }

  lemma DropFenceOfFenced(inner: string)
    ensures DropFence(inner + Fence) == inner
  {
    var t := inner + Fence;
    assert t[|t| - 3..] == Fence;
    assert t[..|t| - 3] == inner;
  }

  /** A fenced reply loses exactly its fences and the white space inside them. */
  lemma StripFencesOfFenced(inner: string)
    ensures StripFences(JsonFence + inner + Fence) == Strip(inner)
  {
    StripOfFenced(inner);
    DropJsonFenceOfFenced(inner);
    DropFenceOfFenced(inner);
  }

  lemma {:induction false} ContainsAt(s: string, sub: string) returns (k: nat)
    requires Contains(s, sub)
    ensures k + |sub| <= |s| && s[k..k + |sub|] == sub
  {
    if StartsWith(s, sub) {
      k := 0;
    } else {
      var k' := ContainsAt(s[1..], sub);
      k := k' + 1;
      assert s[k..k + |sub|] == s[1..][k'..k' + |sub|];
    }
  }

  /** A non-empty text whose last character is no white space keeps that last
      character through `strip`. */
  lemma StripKeepsLast(s: string)
    requires s != [] && !IsSpace(s[|s| - 1])
    ensures var t := Strip(s); t != [] && t[|t| - 1] == s[|s| - 1]
  {
    var a := TrimStart(s);
    assert a != [] && a[|a| - 1] == s[|s| - 1];
  }

  /** The repair in the `"raw_text":` branch once both of its inner checks pass. */
  lemma RepairRawTextBranch(text: string, q: int)
    requires !EndsWith(text, "\"") && !EndsWith(text, "}") && !EndsWith(text, "]")
    requires Contains(text, RawTextKey)
    requires q == LastIndexOf(text, '"') && q > 0
    requires !EndsWith(Strip(text[q + 1..]), "}")
    ensures Repair(text) == text[..q + 1] + "\"}"
  {
  }

  /** On text left by `StripFences` that ends in none of `"`, `}`, `]` and
      holds a `"raw_text":` field, the repair cuts after the last quote and
      closes the string and the object. The source's `rfind` and
      `after_quote` checks can then never fail. */
  lemma RepairClosesRawText(text: string)
    requires text != [] && !IsSpace(text[|text| - 1])
    requires !EndsWith(text, "\"") && !EndsWith(text, "}") && !EndsWith(text, "]")
    requires Contains(text, RawTextKey)
    ensures var q := LastIndexOf(text, '"');
      q > 0 && Repair(text) == text[..q + 1] + "\"}"
  {
    var q := LastQuoteAfterKey(text);
    NothingClosedAfter(text, q);
    RepairRawTextBranch(text, q);
  }

  /** The field name itself holds a quote past position 0. */
  lemma LastQuoteAfterKey(text: string) returns (q: int)
    requires Contains(text, RawTextKey)
    ensures q == LastIndexOf(text, '"') && q > 0
  {
    var k := ContainsAt(text, RawTextKey);
    assert text[k + 9] == RawTextKey[9] == '"';
    q := LastIndexOf(text, '"');
    assert q >= k + 9;
  }

  /** What follows a quote that is not the last character ends like the text. */
  lemma NothingClosedAfter(text: string, q: int)
    requires text != [] && !IsSpace(text[|text| - 1])
    requires !EndsWith(text, "\"") && !EndsWith(text, "}")
    requires 0 <= q < |text| && text[q] == '"'
    ensures !EndsWith(Strip(text[q + 1..]), "}")
  {
    var last := text[|text| - 1];
    assert text[|text| - 1..] == [last];
    assert last != '"' && last != '}';
    var after := text[q + 1..];
    assert after != [] && after[|after| - 1] == last;
    StripKeepsLast(after);
    var stripped := Strip(after);
    assert stripped[|stripped| - 1..] == [last];
  }

  // ---------------------------------------------------------------------
  // A failed model call

  /** What `_gemini_extract` hands back: the extracted fields, or a message. */
  datatype ModelReply = ReplyOk(fields: Extraction) | ReplyFailed(message: string)

  datatype CallOutcome =
    | RetryAfterTwoSeconds
    | Overloaded        // "AI service is temporarily overloaded. ..."
    | TooManyRequests   // "Too many requests. ..."
    | InvalidRequest    // "Invalid request. Please check your receipt image."
    | ServiceError(status: int)

  /** What `_gemini_extract` does with a non-200 status on its
      `retryCount`-th attempt. */
  function OnErrorStatus(status: int, retryCount: nat): (r: CallOutcome)
    requires status != 200
    ensures r == RetryAfterTwoSeconds <==> status == 503 && retryCount < 2
    ensures r == ServiceError(status) <==> status != 503 && status != 429 && status != 400
  {
    if status == 503 && retryCount < 2 then RetryAfterTwoSeconds
    else if status == 503 then Overloaded
    else if status == 429 then TooManyRequests
    else if status == 400 then InvalidRequest
    else ServiceError(status)
  }

  /** The number of further attempts after `retryCount` when every reply is
      503 (counting retries only; a timeout has its own retry). */
  function RetriesLeftUnder503(retryCount: nat): nat
    decreases 2 - retryCount
  {
    if OnErrorStatus(503, retryCount) == RetryAfterTwoSeconds then 1 + RetriesLeftUnder503(retryCount + 1) else 0
  }

  /** A first call that keeps seeing 503 makes three attempts in all. */
  lemma ThreeAttemptsUnder503()
    ensures RetriesLeftUnder503(0) == 2
  {
  }
}
