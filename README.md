# iRequest clearance core in Dafny

iRequest is a Flask application in which a student requests a clearance. The
student pays for it and uploads a receipt. Eight university offices then sign
the request off, and the registrar turns the signed request into a document
request that moves through Processing, Completed and Released or Unclaimed.
This project models the decision logic and the state changes behind those
steps and proves what they guarantee.

- `wrappers.dfy` (`Wrappers`): `Option`.
- `text.dfy` (`Text`): the string operations the source relies on:
  `strip`, `lower`, `upper`, `rfind`, digit filtering and decimal numerals.
- `numbers.dfy` (`Numbers`): `float()` of decimal literals, with amounts and
  confidences as exact reals.
- `payment.dfy` (`Payment`): `_validate_payment`.
- `extractor.dfy` (`Extractor`): `_manual_extract_from_text` and
  `_extract_ref_amount_from_gemini_text` (fence stripping, the one-shot repair,
  the regex fallback, reference selection by pattern priority), and the
  status-code mapping of the Gemini call.
- `refmatch.dfy` (`RefMatch`): the cross-match of an extracted reference
  number against the student's in `api_validate_receipt_reference`.
- `validators.dfy` (`Validators`): the validators of `app/utils/validators.py`.
- `helpers.dfy` (`Helpers`): `get_department_dashboard` and `create_response`.
- `dashboard.dfy` (`Dashboard`): `getEffectiveStatus` and
  `updateRequestCounts` from the student dashboard script.
- `sorting.dfy` (`Sorting`): Python's `sorted` on strings. The duplicate
  check compares sorted lists.
- `records.dfy` (`Records`): the rows of the database tables, the dean-office
  rule, the signatory aggregation rules, the queries (lookups, the duplicate
  candidates, the transfer rows, the transfer sweep), the approval summary and
  the row updates.
- `store.dfy` (`Store`): the database as a class, `Registry`. Each table is a
  sequence field in insertion order, and ids come from per-table counters.
  Each endpoint that changes the database is a method. Every method keeps the
  table invariant `Valid` and states the new value of every field. `Valid`
  requires rows numbered 1, 2, 3… with each counter one past the last row
  (no endpoint deletes a row), unique reference numbers, signatory statuses inside the column's ENUM, and at most one
  document request per student and clearance.

Behaviour of the source worth knowing:
- `_update_request_status_after_sign` sets fulfillment to Approved. The
  approve endpoint sets it to Pending and never triggers a transfer.
- The transfer query names a `cr.purpose` column. The deployed
  `clearance_requests` table only has `purposes`, so the query raises and the
  exception is swallowed. `Registry.hasPurposeColumn` selects the schema. With
  the deployed schema (false) the transfer and the sweep insert nothing. With
  the column present, the transfer inserts exactly one document request and
  one log row, and only once.
- A JSON-body submission never binds the receipt's S3 variables. The INSERT
  then raises, and the endpoint answers 500 without changing anything.
- The approve and reject endpoints look up the staff member's full name
  through `mysql.cursor()`, which returns a (cursor, connection) pair. The
  `execute` call on that pair raises, the handler swallows the error, and the
  approver stays the admin name or 'Staff'.
- The `confidence < 0.3` branch of the cross-match has no effect on the
  result.
- `_validate_payment` has no caller in the source.
- On document mark-processing of a linked request with no signatories, the
  SUMs are NULL and the comparison raises, so the answer is 500.
- On document complete, a named file for a missing document breaks the
  foreign key of `document_files`, so the answer is 500.
- The duplicate check of the submission is commented out in the source, so
  `CheckDuplicate` is not part of `Submit`.

## Model

| member | source | states |
|---|---|---|
| Payment.ValidatePayment | app.py:333-345 | accepted iff the reference is 7-16 digits, the amount is present and positive, its distance to the expected amount is at most 0.01, and the confidence is at least 0.85; each rejection reason is given exactly when every earlier rule passed and its own rule fails |
| Payment.AcceptedAmountInRange | app.py:339-345 | an accepted payment has an amount within [expected - 0.01, expected + 0.01], a valid reference and a confidence of at least 0.85 |
| Numbers.ParseDigitsAndDots | app.py:91-95 | `float` of a string made of digits and dots succeeds iff it holds at most one dot and is not only that dot, and its value is never negative |
| Numbers.PointLiteral | app.py:182-184 | `float` of "whole.fraction" is the decimal value of those digits |
| Numbers.ParseNatToString | app.py:182-184 | `float` of a whole-number numeral is its value |
| Numbers.ParseFormattedCentavos | app.py:182-184 | an amount written as pesos with two decimals ("50.00") reads back as its value |
| Numbers.ParseFloat | app.py:211 | `float` refuses a literal with an underscore that is not between two digits, and reads one without underscores as its signed decimal value |
| Numbers.UnderscoreBetweenDigits | app.py:211 | an underscore between two digits does not change what `float` reads |
| Numbers.ParseFloatUnsigned | app.py:184 | without a sign or white space, `float` is the unsigned decimal reading |
| Extractor.ManualExtract | app.py:83-128 | the reference holds only digits and the amount is non-negative; a field whose pattern misses keeps its default (None, '', '', 0.0), and a match recovers the digits of the reference, the raw_text group as is, the confidence as `float` of its group (0.0 when unreadable) and the amount as `float` of its digits and dots |
| Extractor.ManualAmount | app.py:89-95 | when the amount pattern matches, the amount is present iff its digits-and-dots text has at most one dot and is not only that dot |
| Extractor.StripFences | app.py:134-139 | the cleaned text starts and ends with a non-space character |
| Extractor.StripFencesOfFenced | app.py:134-139 | a reply wrapped in a json code fence loses exactly the fences |
| Extractor.Repair | app.py:148-159 | a text ending in a quote, brace or bracket is kept; without a raw_text key the text gains one '}' exactly when it holds more '{' than '}' (the raw_text case is stated by RepairClosesRawText) |
| Extractor.RepairClosesRawText | app.py:148-159 | an unterminated reply holding "raw_text": is cut after its last quote and closed with `"}` |
| Extractor.ExtractFromText | app.py:131-176 | a parse of the cleaned text is read as the parsed object and any other error gives None; after a decode error the repaired text's parse is read as the object, its other error gives None, and a second decode error gives the hand extraction of the repaired text; every result has a digits-only reference and a non-negative amount |
| Extractor.AfterLoads | app.py:141-176 | the first parse decides unless it is a decode error; then the parse of the repaired text decides (an object is read, another error gives None), and on a second decode error the hand extraction of the repaired text is the result |
| Extractor.FromParsed | app.py:177-219 | only an object gives a result; its reference is empty or 7-16 digits and its amount is non-negative |
| Extractor.PyStr | app.py:182 | `str` of a string is itself, of a number its JSON spelling, of null 'None' and of a boolean 'True' or 'False' |
| Extractor.PyFloat | app.py:211 | `float` of a number is the number, of a string its `float` reading, of a boolean 1.0 or 0.0, and null, a list or a dictionary raise |
| Extractor.ObjectAmount | app.py:180-186 | an amount is read only for a present non-null field, and then iff its digits-and-dots text has at most one dot and is not only that dot |
| Extractor.ChooseReference | app.py:187-210 | the model's own reference_number, digit-filtered, wins when it has 7-16 digits, and otherwise the first pattern match in raw_text is used |
| Extractor.SelectReference | app.py:196-210 | the loop returns the first match of the first pattern that matches, and '' iff no pattern matches |
| Extractor.FirstPatternMatch | app.py:198-210 | the pattern choice is '' or 7-16 digits |
| Extractor.Search | app.py:199-206 | every match of a reference pattern is 7-16 digits |
| Extractor.MatchAt | app.py:199-202 | a pattern matched at one position gives 7-16 digits |
| Extractor.DigitsAt | app.py:199-202 | `(\d{7,16})` matches at a position iff a run of at least seven digits starts there |
| Extractor.OnErrorStatus | app.py:298-314 | a 503 is retried iff fewer than two retries were made, and a generic service error is given iff the status is none of 503, 429 and 400 |
| Extractor.ThreeAttemptsUnder503 | app.py:302-306 | a call that keeps getting 503 is retried twice, so three attempts are made |
| RefMatch.ReferenceDigits | app.py:5867-5868 | the digit filter leaves only digits |
| RefMatch.CleanReference | app.py:5867-5872 | the cleaned reference is non-empty digits without a leading zero (or "0"), with the same value as the digits |
| RefMatch.CrossMatch | app.py:5884-5911 | the references match iff their cleaned forms are equal and 5 to 16 digits long, whatever the confidence |
| RefMatch.MatchMeansSameNumber | app.py:5888-5902 | matching references denote the same number, which is at least 10000 |
| RefMatch.ValidateReceiptReference | app.py:5847-5940 | a missing image or reference is refused, a failed model call is reported; a checked reply carries the digit filters of the extracted and the provided reference and `matches` is their cross-match, true iff the cleaned numbers are equal and 5 to 16 digits long |
| RefMatch.CheckedReply | app.py:5865-5945 | after a successful model call: both digit filters, `matches` as the cross-match, `ai_success` iff digits were extracted, and a match implies extracted digits with the provided value |
| Validators.ValidateEmail | app/utils/validators.py:10-24 | true iff the input is a non-empty string whose stripped form matches local@domain.tld with a TLD of two or more letters |
| Validators.MatchesEmailShape | app/utils/validators.py:20-24 | the direct reading of the e-mail pattern accepts exactly the strings that have a split the pattern allows |
| Validators.MatchesEmailSound | app/utils/validators.py:20-24 | a string the direct reading accepts has a split the pattern allows |
| Validators.MatchesEmailComplete | app/utils/validators.py:20-24 | a string with a split the pattern allows is accepted by the direct reading |
| Validators.ValidatePassword | app/utils/validators.py:27-41 | true iff the input is a string of at least six characters |
| Validators.ValidateRequired | app/utils/validators.py:44-56 | raises "<field> is required" exactly for None and for a string that is empty after strip |
| Validators.ValidateStringLength | app/utils/validators.py:59-80 | passes iff the input is a string of at least the minimum length and, when a non-zero maximum is given, at most that; a non-string raises "<field> must be a string" |
| Validators.ValidatePhoneNumber | app/utils/validators.py:83-100 | true iff the input is a string holding 7 to 15 digits |
| Validators.ValidateFileExtension | app/utils/validators.py:103-122 | true iff the name has a last dot and the lower-cased text after it is allowed |
| Validators.FileExtensionExample | app/utils/validators.py:114-122 | "scan.tar.PDF" passes for {"pdf"}, while "scan.pdf.tar" and "pdf" do not |
| Helpers.GetDepartmentDashboard | app/utils/helpers.py:52-75 | a listed department gets its own page, and the generic dean page is returned exactly for "Dean" and for unlisted names |
| Helpers.CreateResponse | app/utils/helpers.py:106-126 | the response holds 'ok' and 'message' unchanged, and 'data' exactly when data is given, an empty dictionary included |
| Dashboard.EffectiveStatus | app/static/assets/js/student-dashboard.js:83-138 | mapping for consolidated and document requests; for clearances, any rejection gives rejected, not all approved gives pending, and otherwise (or with no signatories) the registrar's stage is shown |
| Dashboard.HasRejected | app/static/assets/js/student-dashboard.js:120 | true iff some signatory's lower-cased status is 'rejected' |
| Dashboard.EveryApproved | app/static/assets/js/student-dashboard.js:121 | true iff every signatory's lower-cased status is 'approved' |
| Dashboard.NormalizedIgnoresCase | app/static/assets/js/student-dashboard.js:84 | statuses that agree up to case normalise alike |
| Dashboard.NormalizedIgnoresPadding | app/static/assets/js/student-dashboard.js:84 | surrounding spaces do not change the normalised status |
| Dashboard.UpdateRequestCounts | app/static/assets/js/student-dashboard.js:140-153 | the three counters are the numbers of requests whose effective status is pending, processing and released |
| Dashboard.CountsPartition | app/static/assets/js/student-dashboard.js:148-153 | every request has exactly one effective status, so the completed and rejected ones are those no counter holds |
| Sorting.Sort | app.py:514-515 | `sorted` returns a sorted permutation of its input |
| Sorting.SortedUnique | app.py:533-537 | two sorted lists of the same strings are equal |
| Sorting.SortEqualIff | app.py:533-537 | two lists sort to the same list iff they are permutations of each other |
| Records.DeriveDeanOffice | app.py:3746-3754 | CoEd exactly for BEED and BSED, HM exactly for BSHM, CS otherwise, after upper-casing |
| Records.OfficeSignatory | app.py:3951-3962 | the row for one office: approved by 'System Auto-Approval' at `now` iff it is the laboratory and the course is not BSCS, otherwise pending and unsigned |
| Records.NewRequestSignatories | app.py:3941-3962 | a new request gets eight signatories with consecutive ids in the fixed office order, the laboratory is approved by 'System Auto-Approval' iff the course is not BSCS, and the others are pending |
| Records.CountStatus | app.py:4430-4437 | the count is positive iff some row has the status, and equal to the length iff all do |
| Records.CountStatusesPartition | app.py:5543-5546 | with statuses in the ENUM, approved + rejected + pending is the total |
| Records.AfterSign | app.py:4428-4441 | some rejection, all approved, or still open, each stated over the request's signatories |
| Records.ProcessingGate | app.py:5542-5572 | no signatories, some rejected, some pending (none rejected), or all approved, each stated over the request's signatories |
| Records.NoIncompleteGate | app.py:5567-5572 | with statuses in the ENUM, the 'not all clearances are approved' refusal never happens |
| Records.ApprovalSummary | app.py:5122-5145 | a missing id is refused, a request without signatories gets 'No clearance signatories found', and every other request gets its tally |
| Records.SummaryMessage | app.py:5170-5172 | 'All clearances approved' when all approved, else 'Waiting for <n> office(s): …' with the number of pending offices, else 'Rejected by: …' |
| Records.Tally | app.py:5146-5172 | all_approved iff every signatory of the request approved, the total is the number of its signatories, the counts add up, the office lists are sorted permutations of the pending and rejected offices with the pending and rejected counts as lengths, and the message follows them |
| Records.RegistrarOf | app.py:4850 | the latest registrar row of a request, or None iff it has none |
| Records.StudentRegistrar | app.py:4791-4798 | the latest registrar row over all of a student's requests, or None iff there is none |
| Records.NewestPositions | app.py:518-525 | the table positions of the rows matching the filter (student, type, Pending or Approved, 30 days), newest first, each matching row exactly once |
| Records.NewestCandidates | app.py:518-525 | the rows at those positions, newest first: exactly the rows matching the filter |
| Records.Candidates | app.py:518-529 | the first min(5, n) of the newest-first matches: at most five rows, all matching the filter, all of them when fewer than five match, and every matching row left out is older than every row kept |
| Records.OmittedAreOlder | app.py:525-529 | a matching row outside a newest-first prefix is older than every row in it |
| Records.SameItems | app.py:514-537 | true iff the stored documents and purposes are permutations of the given ones |
| Records.TransferRows | app.py:4443-4494 | nothing without the purpose column; a transfer creates a pending document request linked to the request, for its owner, with a fresh id and the 'All office clearances approved' log, and only when none is linked yet |
| Records.TransferDefaults | app.py:4470-4476 | without documents and purpose the document request gets 'Clearance Documents' and 'Clearance Processing' |
| Records.TransferIdempotent | app.py:4460-4467 | a second transfer of the same request inserts nothing |
| Records.MissingTransfers | app.py:4528-4569 | the sweep finds exactly the approved requests with pending fulfillment and no linked document request |
| Records.SignOffLeavesSweep | app.py:4439 | after the sign-off update (fulfillment Approved) the request is never found by the sweep |
| Records.ApprovalJoinsSweep | app.py:5233-5236 | after the approve endpoint's update (fulfillment Pending) an untransferred request is found by the sweep |
| Store.SubmissionRefusal | app.py:3812-3916 | the refusals in order: no session gives 401, an unknown student 404, then the JSON branch's 500, a documents or purposes field that is not valid JSON 500 with the decoder's message, the reference, the valid ID and the receipt; none iff all checks pass |
| Store.ReferenceRefusal | app.py:3849-3863 | a given reference passes iff it is 7-16 digits and no request used it |
| Store.UploadRefusal | app.py:3865-3891 | an upload is refused iff its validation failed |
| Store.SubmittedReference | app.py:3849 | the stored reference is the stripped field, None when empty |
| Store.StoredReceipt | app.py:3878-3916 | no receipt without an upload; an uploaded receipt goes to S3 under 'receipts/request_….jpg' when the upload gave a URL, and into the row otherwise |
| Store.NewClearance | app.py:3843-3939 | the new row has the given id, student and time, is pending in all three statuses, stores the submitted reference, documents, purposes and receipt, and the given document type, payment method and amount, else the defaults 'Registrar Documents', 'cash' and '50.00' |
| Store.Approver | app.py:5193-5210 | the session's admin name when one is given, else 'Staff'; never empty |
| Store.RegistrarName | app.py:4778 | the given registrar when given, else the session's admin name when given, else 'Registrar'; never empty |
| Store.ApprovedBy | app.py:5222 | the row is Approved, signed by the approver at `now`, with no rejection reason, and keeps its id, request and office |
| Store.RejectedBy | app.py:5254-5308 | the row is Rejected, signed by the approver at `now`, with the reason as rejection reason, and keeps its id, request and office |
| Store.ReleasedBy | app.py:4814 | the row is Approved, signed by the registrar at `now`, keeps its id, request and office, and keeps its rejection reason |
| Store.Reopened | app.py:4902 | the row is Pending with no signer and no reason, and keeps its signing time |
| Store.RejectionNotice | app.py:5294-5300 | the student is told by the approver, in phase 'Rejected', with a message that starts with the approver and ends with the reason |
| Store.DocumentNotice | app.py:5741-5750 | at most one notice, sent iff the document exists and has a non-zero student id, to that student from 'Registrar' |
| Store.GateReply | app.py:5553-5599 | success iff all approved; 500 without signatories and 400 for the other refusals |
| Store.NamedUploads | app.py:5627-5719 | exactly the uploads that have a file name |
| Store.FileRows | app.py:5627-5719 | one document_files row per saved name, in order |
| Store.CheckDuplicate | app.py:507-549 | a duplicate is reported iff some candidate asks for the same documents and purposes, and the first such candidate is returned, which is the newest: no newer matching row asks for the same items |
| Store.NoNewerMatch | app.py:531-545 | when the k-th newest candidate is the first with the same items, no newer matching row of the table has the same items |
| Store.FirstSameItems | app.py:531-545 | the index of the first row with the same items, or None iff there is none |
| Store.Registry.Submit | app.py:3802-3975 | a refusal changes nothing; otherwise one new request, its eight signatories and the student's flag are added |
| Store.Registry.CreateRequest | app.py:3932-3964 | the inserts of a passed submission |
| Store.Registry.InsertSignatories | app.py:3951-3962 | the loop appends exactly the signatories of the office list |
| Store.Registry.AutoTransfer | app.py:4443-4494 | the tables gain exactly the rows TransferRows gives; nothing else changes |
| Store.Registry.UpdateRequestStatusAfterSign | app.py:4428-4441 | a rejection sets Rejected/Rejected/Pending; all approved sets Approved/Approved/Pending and transfers; otherwise nothing changes |
| Store.Registry.FixMissingTransfers | app.py:4528-4569 | both counts equal the number of requests the sweep finds; tables only grow; with the purpose column every found request ends up linked, and without it nothing changes |
| Store.Registry.ApproveSignatory | app.py:5177-5252 | missing id 400, unknown signatory 404; otherwise the row is approved, the signature stored, and a fully approved request set to Approved/Pending/Pending with the student Approved; no transfer |
| Store.Registry.RecordApproval | app.py:5218-5243 | the signatory row is approved by the approver, a given signature is stored on the request's student, and once no signatory of the request is unapproved the request becomes Approved/Pending/Pending and the student Approved |
| Store.Registry.SettleApproval | app.py:5232-5241 | once no signatory of the request is unapproved the request becomes Approved/Pending/Pending and its student Approved; otherwise nothing changes |
| Store.Registry.RejectSignatory | app.py:5254-5308 | missing id or reason 400, unknown signatory 404; otherwise the row and the request are rejected, the student rejected with the reason, and notified |
| Store.Registry.RecordRejection | app.py:5254-5308 | the updates of a rejection |
| Store.Registry.RegistrarRelease | app.py:4773-4838 | missing student 400, no registrar row 404; otherwise the latest registrar row is approved, the signature stored, and the request settled as after a signature |
| Store.Registry.RecordRelease | app.py:4813-4824 | the updates of a release |
| Store.Registry.RegistrarReject | app.py:4840-4864 | missing id or reason 400, no registrar row 404; otherwise that row and the request are rejected |
| Store.Registry.MoveToPending | app.py:4866-4913 | success iff the request exists, is Approved and has a registrar row; an approved request without one is refused with 404 'Registrar signatory not found'; on success both go back to pending |
| Store.Registry.RegistrarMark | app.py:4719-4771 | a missing id is refused; otherwise the request's statuses are set to the stage, whether or not it exists |
| Store.Registry.DocumentMarkProcessing | app.py:5519-5625 | a linked request is answered by its gate and an unlinked one always moves; only a success changes the document and notifies the student |
| Store.Registry.StartProcessing | app.py:5575-5593 | the document becomes Processing and its student is notified |
| Store.Registry.FinishDocument | app.py:5627-5795 | the document's status, the linked clearance's fulfillment and registrar status, and the notice |
| Store.Registry.SaveUploads | app.py:5649-5684 | one file row per named upload, in order; it fails, storing nothing, iff a named upload is given for a missing document |
| Store.Registry.DocumentComplete | app.py:5627-5719 | refused iff the id is missing or a named file is given for a missing document; otherwise the named files are recorded and the document and its clearance completed |
| Store.Registry.DocumentMarkReleased | app.py:5721-5757 | the document and its clearance become Released, with a notice |
| Store.Registry.DocumentMarkUnclaimed | app.py:5759-5795 | the document and its clearance become Unclaimed, with a notice |
| Store.TransferLinks | app.py:4460-4494 | after a transfer with the purpose column, the request has a linked document request |

## Left out

- Databases and I/O: the MySQL connection, schema creation and migration, Flask sessions, S3, SMTP and the PIL image checks. The session e-mail, the image validation verdict, the S3 URL, the timestamp and `now` are parameters.
- The Gemini HTTP call and its sleep: only its status-code mapping is modelled. `json.loads` is a parameter of `ExtractFromText`.
- `create_notification` failures: a notification is an appended row.
- Floating point: amounts and confidences are exact reals, so IEEE rounding is not modelled.
- Character classes are ASCII: `\d`, `\s`, `strip`, `lower` and `upper` do not cover Unicode. White space (`Text.IsSpace`) is the six characters space, \t, \n, \r, \v and \f, which is exact for the dashboard's JavaScript `trim` within ASCII. Python's `str.strip()`, `float()` and `re`'s `\s` also count the ASCII separators \x1c–\x1f as white space, so on input such as "\x1c50" `Text.Strip`, `Numbers.ParseFloat` and the regex gaps differ from Python.
- `Extractor.PyStr`, `Extractor.ObjectAmount`, `Extractor.ChooseReference`, `Extractor.FromParsed`: `str()` of a JSON list or object is modelled as "", while Python gives its repr (`str([50])` is "[50]"). The digits of that repr would reach the amount filter and the reference patterns, so an amount or reference given as a list or object yields no amount and no reference in the model where the source may read one. Modelling the repr would need Python's string escaping and dictionary order.
- `Numbers.ParseFloat`, `Extractor.ManualExtract`, `Extractor.FromParsed`: `float` also accepts "nan", "inf" and "infinity" in any case and with a sign; the reals have no such values, so the model refuses them. A confidence spelled that way makes the model's extraction give None or 0.0 where Python gives a NaN or an infinity.
- The `documents` and `purposes` of a submission form are lists of strings. The source's `json.loads` may decode the field to any other JSON value (a number, an object, a list of non-strings), which it stores back through `json.dumps`; the model does not represent those.
- `json.dumps` escaping: `Records.JsonList` does not escape quotes, backslashes or non-ASCII characters.
- MySQL ENUM coercion: one `Status` type covers all status columns, including values the columns would refuse. A non-strict `sql_mode` stores such a value as '', and a strict one makes the UPDATE raise; neither is modelled.
- `ORDER BY created_at DESC` is modelled as the reverse of insertion order, and string collation as code-point order.
- The `updated_at` and `completed_at` columns are not modelled.
- Row deletion: no modelled endpoint deletes a row, so the AUTO_INCREMENT ids are the row numbers 1, 2, 3… in each table.
- The approver and registrar names are parameters of the endpoint methods; `Store.Approver` and `Store.RegistrarName` say how the source picks them. The staff-name lookup is not modelled as a query because it always raises (see above).
- The text of Python exception messages in 500 replies is modelled only where a path is known to raise. "Error: foreign key constraint fails" in `Store.Registry.DocumentComplete` stands in for MySQL's longer message, and the `json.loads` message is a field of the form.
- Ids are `nat`, and 0 stands for a missing or falsy id, which the endpoints refuse first. A truthy id that names no row, such as the multipart string "0", has no value of its own in the model: the source treats it as the model treats an id past the last row, which every lookup misses.
- Exceptions inside `_check_duplicate_request` (the `(False, None)` path) and `_manual_extract_from_text` (the None path) need database or regex failures, which the model does not have.
- `Store.CheckDuplicate`: the wrapping `/api/clearance/check-duplicate` endpoint is not modelled.
- The `/api/registrar/check-auto-transfers` report is not modelled.
- The uploaded valid ID is checked but never stored, because the INSERT does not include it.
- `Store.Registry.FixMissingTransfers`: does not model an exception raised inside the loop. The transfer swallows its own exceptions.
