/** The clearance database and the endpoints of app.py that change it: the
    submission of a request, the signatories' approvals and rejections, the
    registrar's actions, the transfer bridge to document requests with its
    sweep, and the document pipeline. Each table is a sequence in insertion
    order; ids come from per-table counters, as AUTO_INCREMENT gives them. */
module Store {
  import opened Wrappers
  import opened Text
  import opened Records

  // ---------------------------------------------------------------------
  // What the tables keep true

  /** No endpoint deletes a row, so AUTO_INCREMENT numbers the rows 1, 2, 3
      and so on and the counter is one past the last row. The reference
      numbers are unique (the unique index on reference_number). */
  predicate ClearancesValid(cs: seq<Clearance>, next: nat) {
    next == |cs| + 1
    && (forall i :: 0 <= i < |cs| ==> cs[i].id == i + 1)
    && (forall i, j :: 0 <= i < j < |cs| && cs[i].referenceNumber.Some? ==> cs[i].referenceNumber != cs[j].referenceNumber)
  }

  /** Ids as for clearances, and only the three statuses of the column. */
  predicate SignatoriesValid(sigs: seq<Signatory>, next: nat) {
    next == |sigs| + 1
    && (forall i :: 0 <= i < |sigs| ==> sigs[i].id == i + 1)
    && SignatoryStatusesValid(sigs)
  }

  /** Ids as for clearances, and at most one document request per student
      and clearance. */
  predicate DocumentsValid(ds: seq<DocumentRequest>, next: nat) {
    next == |ds| + 1
    && (forall i :: 0 <= i < |ds| ==> ds[i].id == i + 1)
    && (forall i, j :: 0 <= i < j < |ds| && ds[i].clearanceId.Some? ==>
          !(ds[i].studentId == ds[j].studentId && ds[i].clearanceId == ds[j].clearanceId))
  }

  lemma SetRequestStatusValid(cs: seq<Clearance>, next: nat, id: nat, st: Status, ful: Status, reg: RegistrarStatus)
    requires ClearancesValid(cs, next)
    ensures ClearancesValid(SetRequestStatus(cs, id, st, ful, reg), next)
  {
    var r := SetRequestStatus(cs, id, st, ful, reg);
    assert forall i :: 0 <= i < |r| ==>
      r[i].id == cs[i].id && r[i].referenceNumber == cs[i].referenceNumber;
  }

  lemma SetFulfillmentValid(cs: seq<Clearance>, next: nat, id: Option<nat>, ful: Status, reg: RegistrarStatus)
    requires ClearancesValid(cs, next)
    ensures ClearancesValid(SetFulfillment(cs, id, ful, reg), next)
  {
    var r := SetFulfillment(cs, id, ful, reg);
    assert forall i :: 0 <= i < |r| ==>
      r[i].id == cs[i].id && r[i].referenceNumber == cs[i].referenceNumber;
  }

  lemma SetDocumentStatusValid(ds: seq<DocumentRequest>, next: nat, id: nat, st: Status)
    requires DocumentsValid(ds, next)
    ensures DocumentsValid(SetDocumentStatus(ds, id, st), next)
  {
    var r := SetDocumentStatus(ds, id, st);
    assert forall i :: 0 <= i < |r| ==>
      r[i].id == ds[i].id && r[i].studentId == ds[i].studentId && r[i].clearanceId == ds[i].clearanceId;
  }

  /** A new document request with a fresh id and a link no row has yet
      keeps the table valid. */
  lemma NewDocumentValid(ds: seq<DocumentRequest>, next: nat, d: DocumentRequest)
    requires DocumentsValid(ds, next)
    requires d.id == next > 0
    requires !HasLinkedDocument(ds, d.studentId, d.clearanceId.GetOr(0)) || d.clearanceId.None?
    ensures DocumentsValid(ds + [d], next + 1)
  {
    var r := ds + [d];
    forall i, j | 0 <= i < j < |r| && r[i].clearanceId.Some?
      ensures !(r[i].studentId == r[j].studentId && r[i].clearanceId == r[j].clearanceId)
    {
      if j == |ds| {
        assert r[i] == ds[i];
      }
    }
  }

  /** A new request with a fresh id and an unused reference number keeps the
      table valid. */
  lemma NewClearanceValid(cs: seq<Clearance>, next: nat, c: Clearance)
    requires ClearancesValid(cs, next) && c.id == next
    requires c.referenceNumber.Some? ==> forall i :: 0 <= i < |cs| ==> cs[i].referenceNumber != c.referenceNumber
    ensures ClearancesValid(cs + [c], next + 1)
  {
  }

  /** A new signatory with a fresh id and one of the column's statuses keeps
      the table valid. */
  lemma NewSignatoryValid(sigs: seq<Signatory>, next: nat, s: Signatory)
    requires SignatoriesValid(sigs, next) && s.id == next && s.status in {Pending, Approved, Rejected}
    ensures SignatoriesValid(sigs + [s], next + 1)
  {
    var r := sigs + [s];
    forall i | 0 <= i < |r| ensures r[i].status in {Pending, Approved, Rejected} {
      if i < |sigs| { assert r[i] == sigs[i]; }
    }
  }

  /** A status update leaves every request with its owner. */
  lemma OwnerKept(cs: seq<Clearance>, rid: nat, st: Status, ful: Status, reg: RegistrarStatus)
    ensures forall id :: Owner(SetRequestStatus(cs, id, st, ful, reg), rid) == Owner(cs, rid)
  {
    forall id ensures Owner(SetRequestStatus(cs, id, st, ful, reg), rid) == Owner(cs, rid) {
      FindClearanceKept(cs, SetRequestStatus(cs, id, st, ful, reg), rid);
    }
  }

  lemma {:induction false} FindClearanceKept(cs: seq<Clearance>, cs': seq<Clearance>, rid: nat)
    requires |cs| == |cs'|
    requires forall i :: 0 <= i < |cs| ==> cs'[i].id == cs[i].id && cs'[i].studentId == cs[i].studentId
    ensures FindClearance(cs', rid) == FindClearance(cs, rid)
    ensures Owner(cs', rid) == Owner(cs, rid)
  {
    if cs != [] {
      FindClearanceKept(cs[1..], cs'[1..], rid);
    }
  }

  lemma SignatoryUpdateValid(sigs: seq<Signatory>, next: nat, k: nat, s: Signatory)
    requires SignatoriesValid(sigs, next) && k < |sigs|
    requires s.id == sigs[k].id && s.status in {Pending, Approved, Rejected}
    ensures SignatoriesValid(sigs[k := s], next)
  {
  }

  /** The rows one transfer leaves behind: nothing new, or its document
      request and its log row appended and the document counter advanced. */
  predicate Transferred(ds0: seq<DocumentRequest>, ts0: seq<TransferLog>, next0: nat,
                        ds: seq<DocumentRequest>, ts: seq<TransferLog>, next: nat, t: Option<Transfer>) {
    match t
    case None => ds == ds0 && ts == ts0 && next == next0
    case Some(x) => ds == ds0 + [x.document] && ts == ts0 + [x.log] && next == next0 + 1
  }

  /** What `_update_request_status_after_sign` leaves behind, given the
      signatories it counts. */
  predicate AfterSignEffect(hasPurposeColumn: bool, sigs: seq<Signatory>, rid: nat,
                            cs0: seq<Clearance>, ds0: seq<DocumentRequest>, ts0: seq<TransferLog>, next0: nat,
                            cs: seq<Clearance>, ds: seq<DocumentRequest>, ts: seq<TransferLog>, next: nat) {
    match AfterSign(sigs, rid)
    case SomeRejected =>
      cs == SetRequestStatus(cs0, rid, Rejected, Rejected, RegistrarPending) && ds == ds0 && ts == ts0 && next == next0
    case AllSigned =>
      cs == SetRequestStatus(cs0, rid, Approved, Approved, RegistrarPending)
      && Transferred(ds0, ts0, next0, ds, ts, next, TransferRows(hasPurposeColumn, cs, ds0, rid, next0))
    case StillOpen =>
      cs == cs0 && ds == ds0 && ts == ts0 && next == next0
  }

  /** A truthy optional string. */
  predicate Given(s: Option<string>) {
    s.Some? && s.value != []
  }

  /** The student a request belongs to, 0 when the request is missing (the
      `or {}` of the source, whose `student_id` is then falsy). */
  function Owner(cs: seq<Clearance>, rid: nat): nat {
    match FindClearance(cs, rid)
    case None => 0
    case Some(k) => cs[k].studentId
  }

  // ---------------------------------------------------------------------
  // Submission inputs

  /** An uploaded image: none (no part, or a part without a file name), or
      one whose validation failed with the given message or passed; `encoded`
      is the base64 text of the compressed image. */
  datatype Upload = NoUpload | Upload(problem: Option<string>, encoded: string)

  /** The fields of a form submission; None is an absent field. `documents`
      and `purposes` are the decoded JSON lists; `decodeError` is the message
      of the `json.loads` error when either of them is not valid JSON. */
  datatype SubmissionForm = SubmissionForm(
    decodeError: Option<string>,
    documents: seq<string>,
    purposes: seq<string>,
    reason: Option<string>,
    documentType: Option<string>,
    paymentMethod: Option<string>,
    paymentAmount: Option<string>,
    referenceNumber: Option<string>,
    validId: Upload,
    receipt: Upload)

  /** The reference number as stored: stripped, None when empty. */
  function SubmittedReference(form: SubmissionForm): (r: Option<string>)
    ensures r.Some? ==> form.referenceNumber.Some? && r.value != [] && r.value == Strip(form.referenceNumber.value)
  {
    var s := Strip(form.referenceNumber.GetOr(""));
    if s == [] then None else Some(s)
  }

  /** The checks on the reference number: seven to sixteen digits, and not
      one an earlier request used. */
  function ReferenceRefusal(cs: seq<Clearance>, reference: Option<string>): (r: Option<Reply>)
    ensures r.Some? ==> r.value.Fail? && r.value.code == 400
    ensures r.None? <==>
      (reference.Some? ==>
         IsReferenceDigits(reference.value) && forall i :: 0 <= i < |cs| ==> cs[i].referenceNumber != reference)
  {
    if reference.None? then None
    else if !IsReferenceDigits(reference.value) then
      Some(Fail(400, "Reference number must be 7-16 digits only"))
    else if exists i :: 0 <= i < |cs| && cs[i].referenceNumber == reference then
      Some(Fail(400, "Reference number '" + reference.value + "' has already been used. Please use a different reference number."))
    else None
  }

  /** The check on one uploaded image. */
  function UploadRefusal(what: string, upload: Upload): (r: Option<Reply>)
    ensures r.Some? ==> r.value.Fail? && r.value.code == 400
    ensures r.None? <==> (upload.Upload? ==> upload.problem.None?)
  {
    if upload.Upload? && upload.problem.Some? then Some(Fail(400, "Invalid " + what + " image: " + upload.problem.value))
    else None
  }

  /** The refusals of the submission endpoint, in the order it checks them;
      None lets the request through. The JSON branch never binds the S3
      fields of the receipt, so the statement that first reads them raises. */
  function SubmissionRefusal(students: seq<Student>, cs: seq<Clearance>, sessionEmail: Option<string>,
                             isJson: bool, form: SubmissionForm): (r: Option<Reply>)
    ensures r.Some? ==> r.value.Fail?
    ensures !Given(sessionEmail) ==> r == Some(Fail(401, "No student session found (HTTP 401)"))
    ensures Given(sessionEmail) && FindStudent(students, sessionEmail.value).None? ==> r == Some(Fail(404, "Student not found"))
    ensures (Given(sessionEmail) && FindStudent(students, sessionEmail.value).Some? && !isJson
             && form.decodeError.Some?) ==> r == Some(Fail(500, "Error: " + form.decodeError.value))
    ensures r.None? <==>
      Given(sessionEmail) && FindStudent(students, sessionEmail.value).Some? && !isJson
      && form.decodeError.None?
      && ReferenceRefusal(cs, SubmittedReference(form)).None?
      && UploadRefusal("valid ID", form.validId).None? && UploadRefusal("receipt", form.receipt).None?
  {
    if !Given(sessionEmail) then Some(Fail(401, "No student session found (HTTP 401)"))
    else if FindStudent(students, sessionEmail.value).None? then Some(Fail(404, "Student not found"))
    else if isJson then Some(Fail(500, "Error: cannot access local variable 'receipt_s3_url' where it is not associated with a value"))
    else if form.decodeError.Some? then Some(Fail(500, "Error: " + form.decodeError.value))
    else if ReferenceRefusal(cs, SubmittedReference(form)).Some? then ReferenceRefusal(cs, SubmittedReference(form))
    else if UploadRefusal("valid ID", form.validId).Some? then UploadRefusal("valid ID", form.validId)
    else UploadRefusal("receipt", form.receipt)
  }

  /** Where the receipt is kept: in S3 when the upload returned a URL, in the
      row otherwise. */
  function StoredReceipt(receipt: Upload, s3Url: Option<string>, studentId: nat, stamp: string): (r: Receipt)
    ensures r.NoReceipt? <==> receipt.NoUpload?
    ensures r.S3Receipt? <==> receipt.Upload? && Given(s3Url)
    ensures r.S3Receipt? ==>
      r.url == s3Url.value && StartsWith(r.key, "receipts/request_") && EndsWith(r.key, ".jpg")
    ensures r.InlineReceipt? ==> r.data == receipt.encoded
  {
    if receipt.NoUpload? then NoReceipt
    else if Given(s3Url) then S3Receipt(s3Url.value, "receipts/request_" + NatToString(studentId) + "_" + stamp + ".jpg")
    else InlineReceipt(receipt.encoded)
  }

  /** The row a submission inserts. */
  function NewClearance(id: nat, studentId: nat, form: SubmissionForm, s3Url: Option<string>, stamp: string, now: int): (c: Clearance)
    ensures c.status == Pending && c.fulfillment == Pending && c.registrar == RegistrarPending
    ensures c.referenceNumber == SubmittedReference(form)
    ensures c.documentType != []
    ensures c.id == id && c.studentId == studentId && c.createdAt == now && c.pickupDate.None?
    ensures Given(form.documentType) ==> c.documentType == form.documentType.value
    ensures !Given(form.documentType) ==> c.documentType == "Registrar Documents"
    ensures form.paymentMethod.Some? ==> c.paymentMethod == form.paymentMethod.value
    ensures form.paymentMethod.None? ==> c.paymentMethod == "cash"
    ensures form.paymentAmount.Some? ==> c.paymentAmount == form.paymentAmount.value
    ensures form.paymentAmount.None? ==> c.paymentAmount == "50.00"
    ensures c.documents == Some(form.documents) && c.purposes == Some(form.purposes) && c.purpose.None?
    ensures c.receipt == StoredReceipt(form.receipt, s3Url, studentId, stamp)
    ensures c.reason.Some? ==> c.reason.value != []
  {
    var reason := Strip(form.reason.GetOr(""));
    Clearance(
      id, studentId, Pending, Pending, RegistrarPending,
      if Given(form.documentType) then form.documentType.value else DefaultDocumentType,
      Some(form.documents), Some(form.purposes), None,
      if reason == [] then None else Some(reason),
      form.paymentMethod.GetOr("cash"), form.paymentAmount.GetOr("50.00"),
      StoredReceipt(form.receipt, s3Url, studentId, stamp),
      SubmittedReference(form), now, None)
  }

  /** The registrar's three actions on a clearance (mark-processing,
      mark-released, mark-unclaimed). */
  datatype Stage = StageProcessing | StageReleased | StageUnclaimed

  function StageStatus(stage: Stage): Status {
    match stage
    case StageProcessing => Processing
    case StageReleased => Released
    case StageUnclaimed => Unclaimed
  }

  function StageRegistrar(stage: Stage): RegistrarStatus {
    if stage == StageProcessing then RegistrarProcessing else RegistrarComplete
  }

  /** The notice a document endpoint sends: none when the document is
      missing or its student id is falsy. */
  function DocumentNotice(ds: seq<DocumentRequest>, did: nat, action: string, phase: string, message: string): (r: seq<Notification>)
    ensures |r| <= 1
    ensures r != [] <==> FindDocument(ds, did).Some? && ds[FindDocument(ds, did).value].studentId != 0
    ensures r != [] ==>
      r[0] == Notification(ds[FindDocument(ds, did).value].studentId, "Registrar", action, phase, message)
  {
    match FindDocument(ds, did)
    case None => []
    case Some(k) => if ds[k].studentId == 0 then [] else [Notification(ds[k].studentId, "Registrar", action, phase, message)]
  }

  /** The name an office's action is signed with: the session's admin name,
      else "Staff". The endpoints also try to look up a staff member's full
      name, but they call `execute` on the pair that `mysql.cursor()`
      returns, which raises, and the handler keeps "Staff". */
  function Approver(adminName: Option<string>): (r: string)
    ensures r != []
    ensures Given(adminName) ==> r == adminName.value
    ensures !Given(adminName) ==> r == "Staff"
  {
    if Given(adminName) then adminName.value else "Staff"
  }

  /** The registrar named by the request, else the session's admin name,
      else "Registrar". */
  function RegistrarName(given: Option<string>, adminName: Option<string>): (r: string)
    ensures r != []
    ensures Given(given) ==> r == given.value
    ensures !Given(given) && Given(adminName) ==> r == adminName.value
    ensures !Given(given) && !Given(adminName) ==> r == "Registrar"
  {
    if Given(given) then given.value else if Given(adminName) then adminName.value else RegistrarOffice
  }

  /** A signatory row after an office approved it. */
  function ApprovedBy(s: Signatory, approver: string, now: int): (r: Signatory)
    ensures r.id == s.id && r.requestId == s.requestId && r.office == s.office && r.status == Approved
    ensures r.signedBy == Some(approver) && r.signedAt == Some(now) && r.rejectionReason.None?
  {
    s.(status := Approved, signedBy := Some(approver), signedAt := Some(now), rejectionReason := None)
  }

  /** A signatory row after an office rejected it. */
  function RejectedBy(s: Signatory, approver: string, reason: string, now: int): (r: Signatory)
    ensures r.id == s.id && r.requestId == s.requestId && r.office == s.office && r.status == Rejected
    ensures r.signedBy == Some(approver) && r.signedAt == Some(now) && r.rejectionReason == Some(reason)
  {
    s.(status := Rejected, signedBy := Some(approver), signedAt := Some(now), rejectionReason := Some(reason))
  }

  /** The registrar's row after the registrar released it; an earlier
      rejection reason stays. */
  function ReleasedBy(s: Signatory, registrar: string, now: int): (r: Signatory)
    ensures r.id == s.id && r.requestId == s.requestId && r.office == s.office && r.status == Approved
    ensures r.signedBy == Some(registrar) && r.signedAt == Some(now) && r.rejectionReason == s.rejectionReason
  {
    s.(status := Approved, signedBy := Some(registrar), signedAt := Some(now))
  }

  /** The registrar's row after it was sent back to pending; the signing
      time stays. */
  function Reopened(s: Signatory): (r: Signatory)
    ensures r.id == s.id && r.requestId == s.requestId && r.office == s.office && r.status == Pending
    ensures r.signedBy.None? && r.rejectionReason.None? && r.signedAt == s.signedAt
  {
    s.(status := Pending, signedBy := None, rejectionReason := None)
  }

  /** The rejection notice a student receives. */
  function RejectionNotice(studentId: nat, approver: string, reason: string): (r: Notification)
    ensures r.studentId == studentId && r.staffName == approver && r.phase == "Rejected"
    // the message names the approver first and ends with the reason
    ensures StartsWith(r.message, approver) && EndsWith(r.message, reason)
  {
    Notification(studentId, approver, "rejected", "Rejected", approver + " rejected your clearance due to: " + reason)
  }

  /** The answer of the document mark-processing endpoint for a linked
      request, by the state of its clearance. With no signatories the sums
      of the query are NULL and the comparison raises. */
  function GateReply(g: Gate): (r: Reply)
    ensures r.Ok? <==> g == GateApproved
    ensures r.Fail? ==> r.code == (if g == GateNoSignatories then 500 else 400)
  {
    match g
    case GateNoSignatories => Fail(500, "Error: '>' not supported between instances of 'NoneType' and 'int'")
    case GateRejected => Fail(400, "Cannot process — some clearances have been rejected.")
    case GatePending => Fail(400, "Cannot process yet — some clearances are still pending.")
    case GateIncomplete => Fail(400, "Cannot process — not all clearances are approved.")
    case GateApproved => Ok("All clearances approved — document is now in processing.")
  }

  /** The uploads that have a file name, in order; the others are skipped. */
  function NamedUploads(uploads: seq<string>): (r: seq<string>)
    ensures |r| <= |uploads|
    ensures forall n :: n in r <==> n in uploads && n != []
  {
    if uploads == [] then []
    else (if uploads[0] == [] then [] else [uploads[0]]) + NamedUploads(uploads[1..])
  }

  /** The document_files rows recorded for `names`. */
  function FileRows(did: nat, names: seq<string>): (r: seq<DocumentFile>)
    ensures |r| == |names|
    ensures forall i :: 0 <= i < |r| ==> r[i] == DocumentFile(did, names[i])
  {
    seq(|names|, i requires 0 <= i < |names| => DocumentFile(did, names[i]))
  }

  lemma {:induction false} NamedUploadsSnoc(uploads: seq<string>, i: nat)
    requires i < |uploads|
    ensures NamedUploads(uploads[..i + 1]) == NamedUploads(uploads[..i]) + (if uploads[i] == [] then [] else [uploads[i]])
    decreases i
  {
    var xs := uploads[..i + 1];
    if i == 0 {
      assert xs[1..] == [];
    } else {
      assert xs[1..] == uploads[1..][..i];
      assert uploads[..i][1..] == uploads[1..][..i - 1];
      NamedUploadsSnoc(uploads[1..], i - 1);
    }
  }

  /** An upload with a name makes the named list non-empty. */
  lemma NamedUploadsNonEmpty(uploads: seq<string>, i: nat)
    requires i < |uploads| && uploads[i] != []
    ensures NamedUploads(uploads) != []
  {
    assert uploads[i] in uploads;
  }

  /** A document status update leaves each document's link and student. */
  lemma DocumentStatusKept(ds: seq<DocumentRequest>, id: nat, st: Status, did: nat)
    ensures FindDocument(SetDocumentStatus(ds, id, st), did) == FindDocument(ds, did)
    ensures LinkedClearance(SetDocumentStatus(ds, id, st), did) == LinkedClearance(ds, did)
    ensures forall action, phase, message :: DocumentNotice(SetDocumentStatus(ds, id, st), did, action, phase, message)
                                           == DocumentNotice(ds, did, action, phase, message)
  {
    FindDocumentKept(ds, SetDocumentStatus(ds, id, st), did);
  }

  lemma {:induction false} FindDocumentKept(ds: seq<DocumentRequest>, ds': seq<DocumentRequest>, did: nat)
    requires |ds| == |ds'|
    requires forall i :: 0 <= i < |ds| ==>
      ds'[i].id == ds[i].id && ds'[i].studentId == ds[i].studentId && ds'[i].clearanceId == ds[i].clearanceId
    ensures FindDocument(ds', did) == FindDocument(ds, did)
  {
    if ds != [] {
      FindDocumentKept(ds[1..], ds'[1..], did);
    }
  }

  /** `_check_duplicate_request`: the first of the (at most five) newest
      pending or approved requests of the same type from the last thirty
      days that asks for the same documents and purposes. */
  method CheckDuplicate(cs: seq<Clearance>, studentId: nat, documents: seq<string>, purposes: seq<string>,
                        documentType: string, now: int)
    returns (isDuplicate: bool, existing: Option<Clearance>)
    ensures isDuplicate <==> existing.Some?
    ensures existing.Some? ==>
      var rows := Candidates(cs, studentId, documentType, now);
      exists k :: 0 <= k < |rows| && rows[k] == existing.value
                  && SameItems(rows[k], documents, purposes)
                  && forall j :: 0 <= j < k ==> !SameItems(rows[j], documents, purposes)
    ensures existing.Some? ==> existing.value in cs && IsCandidate(existing.value, studentId, documentType, now)
    ensures !isDuplicate ==>
      forall c :: c in Candidates(cs, studentId, documentType, now) ==> !SameItems(c, documents, purposes)
    // the newest match: no newer candidate asks for the same items
    ensures existing.Some? ==>
      exists p :: 0 <= p < |cs| && cs[p] == existing.value && SameItems(cs[p], documents, purposes)
        && forall q :: p < q < |cs| && IsCandidate(cs[q], studentId, documentType, now)
                       ==> !SameItems(cs[q], documents, purposes)
  {
    var rows := Candidates(cs, studentId, documentType, now);
    var found := FirstSameItems(rows, documents, purposes);
    if found.Some? {
      assert rows[found.value] in rows;
      NoNewerMatch(cs, studentId, documents, purposes, documentType, now, found.value);
      return true, Some(rows[found.value]);
    }
    return false, None;
  }

  /** The first matching row of the candidate list has no newer match. */
  lemma NoNewerMatch(cs: seq<Clearance>, studentId: nat, documents: seq<string>, purposes: seq<string>,
                     documentType: string, now: int, k: nat)
    requires k < |Candidates(cs, studentId, documentType, now)|
    requires forall j :: 0 <= j < k ==> !SameItems(Candidates(cs, studentId, documentType, now)[j], documents, purposes)
    ensures var p := NewestPositions(cs, studentId, documentType, now)[k];
      p < |cs| && cs[p] == Candidates(cs, studentId, documentType, now)[k]
      && forall q :: p < q < |cs| && IsCandidate(cs[q], studentId, documentType, now)
                     ==> !SameItems(cs[q], documents, purposes)
  {
    var rows := Candidates(cs, studentId, documentType, now);
    var ps := NewestPositions(cs, studentId, documentType, now);
    var p := ps[k];
    forall q | p < q < |cs| && IsCandidate(cs[q], studentId, documentType, now)
      ensures !SameItems(cs[q], documents, purposes)
    {
      var j :| 0 <= j < |ps| && ps[j] == q;
      assert j < k;
      assert rows[j] == cs[q];
    }
  }

  /** The loop over the fetched rows, stopping at the first match. */
  method FirstSameItems(rows: seq<Clearance>, documents: seq<string>, purposes: seq<string>) returns (found: Option<nat>)
    ensures found.Some? ==>
      found.value < |rows| && SameItems(rows[found.value], documents, purposes)
      && forall j :: 0 <= j < found.value ==> !SameItems(rows[j], documents, purposes)
    ensures found.None? ==> forall j :: 0 <= j < |rows| ==> !SameItems(rows[j], documents, purposes)
  {
    var i := 0;
    while i < |rows|
      invariant 0 <= i <= |rows|
      invariant forall j :: 0 <= j < i ==> !SameItems(rows[j], documents, purposes)
    {
      if SameItems(rows[i], documents, purposes) {
        return Some(i);
      }
      i := i + 1;
    }
    return None;
  }

  // ---------------------------------------------------------------------
  // The database

  class Registry {
    /** Whether clearance_requests has a `purpose` column; the deployed
        schema has `purposes` only. */
    const hasPurposeColumn: bool
    var students: seq<Student>
    var clearances: seq<Clearance>
    var signatories: seq<Signatory>
    var documents: seq<DocumentRequest>
    var files: seq<DocumentFile>
    var transfers: seq<TransferLog>
    var notifications: seq<Notification>
    var nextClearanceId: nat
    var nextSignatoryId: nat
    var nextDocumentId: nat

    ghost predicate Valid()
      reads this
    {
      ClearancesValid(clearances, nextClearanceId)
      && SignatoriesValid(signatories, nextSignatoryId)
      && DocumentsValid(documents, nextDocumentId)
    }

    /** A database with the given students and no requests yet. */
    constructor (hasPurposeColumn: bool, students: seq<Student>)
      ensures Valid()
      ensures this.hasPurposeColumn == hasPurposeColumn && this.students == students
      ensures clearances == [] && signatories == [] && documents == [] && files == []
      ensures transfers == [] && notifications == []
    {
      this.hasPurposeColumn := hasPurposeColumn;
      this.students := students;
      clearances := [];
      signatories := [];
      documents := [];
      files := [];
      transfers := [];
      notifications := [];
      nextClearanceId := 1;
      nextSignatoryId := 1;
      nextDocumentId := 1;
    }

    /** `api_student_submit_clearance_request`: on success, one new pending
        request, its eight signatories and the student's flag. */
    method Submit(sessionEmail: Option<string>, isJson: bool, form: SubmissionForm,
                  s3Url: Option<string>, stamp: string, now: int)
      returns (reply: Reply, requestId: Option<nat>)
      requires Valid()
      modifies this
      ensures Valid()
      ensures files == old(files) && documents == old(documents) && transfers == old(transfers)
      ensures notifications == old(notifications) && nextDocumentId == old(nextDocumentId)
      ensures var refusal := SubmissionRefusal(old(students), old(clearances), sessionEmail, isJson, form);
        refusal.Some? ==>
          reply == refusal.value && requestId.None?
          && students == old(students) && clearances == old(clearances) && signatories == old(signatories)
          && nextClearanceId == old(nextClearanceId) && nextSignatoryId == old(nextSignatoryId)
      ensures var refusal := SubmissionRefusal(old(students), old(clearances), sessionEmail, isJson, form);
        refusal.None? ==>
          var student := old(students)[FindStudent(old(students), sessionEmail.value).value];
          var rid := old(nextClearanceId);
          reply == Ok("") && requestId == Some(rid)
          && clearances == old(clearances) + [NewClearance(rid, student.id, form, s3Url, stamp, now)]
          && signatories == old(signatories) + RequestSignatories(rid, old(nextSignatoryId), student.courseCode, now)
          && students == MarkSubmitted(old(students), student.id)
          && nextClearanceId == rid + 1 && nextSignatoryId == old(nextSignatoryId) + 8
    {
      requestId := None;
      var refusal := SubmissionRefusal(students, clearances, sessionEmail, isJson, form);
      if refusal.Some? {
        reply := refusal.value;
        return;
      }
      var student := students[FindStudent(students, sessionEmail.value).value];
      var rid := CreateRequest(student, form, s3Url, stamp, now);
      reply := Ok("");
      requestId := Some(rid);
    }

    /** The inserts of a submission that passed its checks. */
    method CreateRequest(student: Student, form: SubmissionForm, s3Url: Option<string>, stamp: string, now: int)
      returns (rid: nat)
      requires Valid()
      requires ReferenceRefusal(clearances, SubmittedReference(form)).None?
      modifies this
      ensures Valid()
      ensures rid == old(nextClearanceId)
      ensures clearances == old(clearances) + [NewClearance(rid, student.id, form, s3Url, stamp, now)]
      ensures signatories == old(signatories) + RequestSignatories(rid, old(nextSignatoryId), student.courseCode, now)
      ensures students == MarkSubmitted(old(students), student.id)
      ensures nextClearanceId == rid + 1 && nextSignatoryId == old(nextSignatoryId) + 8
      ensures files == old(files) && documents == old(documents) && transfers == old(transfers)
      ensures notifications == old(notifications) && nextDocumentId == old(nextDocumentId)
    {
      rid := nextClearanceId;
      var c := NewClearance(rid, student.id, form, s3Url, stamp, now);
      NewClearanceValid(clearances, nextClearanceId, c);
      clearances := clearances + [c];
      nextClearanceId := nextClearanceId + 1;
      InsertSignatories(rid, Offices(DeriveDeanOffice(student.courseCode)), student.courseCode, now);
      students := MarkSubmitted(students, student.id);
    }

    /** The loop of the submission that inserts one signatory per office. */
    method InsertSignatories(rid: nat, offices: seq<string>, courseCode: Option<string>, now: int)
      requires Valid()
      modifies this
      ensures Valid()
      ensures signatories == old(signatories) + NewSignatories(rid, old(nextSignatoryId), offices, courseCode, now)
      ensures nextSignatoryId == old(nextSignatoryId) + |offices|
      ensures students == old(students) && clearances == old(clearances) && nextClearanceId == old(nextClearanceId)
      ensures files == old(files) && documents == old(documents) && transfers == old(transfers)
      ensures notifications == old(notifications) && nextDocumentId == old(nextDocumentId)
    {
      var firstId := nextSignatoryId;
      var k := 0;
      while k < |offices|
        invariant 0 <= k <= |offices|
        invariant Valid()
        invariant nextSignatoryId == firstId + k
        invariant signatories == old(signatories) + NewSignatories(rid, firstId, offices[..k], courseCode, now)
        invariant students == old(students) && clearances == old(clearances) && nextClearanceId == old(nextClearanceId)
        invariant files == old(files) && documents == old(documents) && transfers == old(transfers)
        invariant notifications == old(notifications) && nextDocumentId == old(nextDocumentId)
      {
        var signatory := OfficeSignatory(rid, nextSignatoryId, offices[k], courseCode, now);
        NewSignatoriesSnoc(rid, firstId, offices, k, courseCode, now);
        NewSignatoryValid(signatories, nextSignatoryId, signatory);
        signatories := signatories + [signatory];
        nextSignatoryId := nextSignatoryId + 1;
        k := k + 1;
      }
      assert offices[..k] == offices;
    }

    /** `_auto_transfer_to_pending_documents`. */
    method AutoTransfer(rid: nat)
      requires Valid()
      modifies this
      ensures Valid()
      ensures Transferred(old(documents), old(transfers), old(nextDocumentId), documents, transfers, nextDocumentId,
                          TransferRows(hasPurposeColumn, clearances, old(documents), rid, old(nextDocumentId)))
      ensures students == old(students) && clearances == old(clearances) && signatories == old(signatories)
      ensures files == old(files) && notifications == old(notifications)
      ensures nextClearanceId == old(nextClearanceId) && nextSignatoryId == old(nextSignatoryId)
    {
      if !hasPurposeColumn {
        // the query names cr.purpose and raises; the exception is swallowed
        return;
      }
      var found := FindClearance(clearances, rid);
      if found.None? {
        return;
      }
      var c := clearances[found.value];
      if HasLinkedDocument(documents, c.studentId, rid) {
        return;
      }
      var document := DocumentRequest(nextDocumentId, c.studentId, TransferDocumentType(c.documents),
                                      TransferPurpose(c.purpose), Pending, Some(rid), c.pickupDate);
      var log := TransferLog(rid, nextDocumentId, c.studentId, TransferReason);
      assert TransferRows(hasPurposeColumn, clearances, documents, rid, nextDocumentId) == Some(Transfer(document, log));
      NewDocumentValid(documents, nextDocumentId, document);
      documents := documents + [document];
      transfers := transfers + [log];
      nextDocumentId := nextDocumentId + 1;
    }

    /** `_update_request_status_after_sign`. */
    method UpdateRequestStatusAfterSign(rid: nat)
      requires Valid()
      modifies this
      ensures Valid()
      ensures AfterSignEffect(hasPurposeColumn, signatories, rid,
                              old(clearances), old(documents), old(transfers), old(nextDocumentId),
                              clearances, documents, transfers, nextDocumentId)
      ensures students == old(students) && signatories == old(signatories)
      ensures files == old(files) && notifications == old(notifications)
      ensures nextClearanceId == old(nextClearanceId) && nextSignatoryId == old(nextSignatoryId)
    {
      var mine := SignatoriesOf(signatories, rid);
      var rejected := CountStatus(mine, Rejected);
      if rejected > 0 {
        SetRequestStatusValid(clearances, nextClearanceId, rid, Rejected, Rejected, RegistrarPending);
        clearances := SetRequestStatus(clearances, rid, Rejected, Rejected, RegistrarPending);
        return;
      }
      var notApproved := |mine| - CountStatus(mine, Approved);
      if notApproved == 0 {
        SetRequestStatusValid(clearances, nextClearanceId, rid, Approved, Approved, RegistrarPending);
        clearances := SetRequestStatus(clearances, rid, Approved, Approved, RegistrarPending);
        AutoTransfer(rid);
      }
    }

    /** The sweep of `api_fix_missing_transfers`: every request it finds is
        handed to the transfer, and each one counts as fixed. */
    method FixMissingTransfers() returns (fixedCount: nat, totalFound: nat)
      requires Valid()
      modifies this
      ensures Valid()
      ensures fixedCount == totalFound == |MissingTransfers(old(clearances), old(documents))|
      ensures students == old(students) && clearances == old(clearances) && signatories == old(signatories)
      ensures files == old(files) && notifications == old(notifications)
      ensures old(documents) <= documents && old(transfers) <= transfers
      ensures !hasPurposeColumn ==> documents == old(documents) && transfers == old(transfers)
      ensures hasPurposeColumn ==> AllLinked(documents, MissingTransfers(old(clearances), old(documents)))
    {
      var missing := MissingTransfers(clearances, documents);
      fixedCount := 0;
      var i := 0;
      while i < |missing|
        invariant 0 <= i <= |missing|
        invariant Valid()
        invariant fixedCount == i
        invariant students == old(students) && clearances == old(clearances) && signatories == old(signatories)
        invariant files == old(files) && notifications == old(notifications)
        invariant old(documents) <= documents && old(transfers) <= transfers
        invariant !hasPurposeColumn ==> documents == old(documents) && transfers == old(transfers)
        invariant hasPurposeColumn ==> AllLinked(documents, missing[..i])
      {
        ghost var ds0, ts0, next0 := documents, transfers, nextDocumentId;
        AutoTransfer(missing[i].id);
        assert ds0 <= documents;
        if hasPurposeColumn {
          TransferLinks(clearances, ds0, ts0, next0, documents, transfers, nextDocumentId, missing[i]);
          AllLinkedStep(ds0, documents, missing, i);
        }
        fixedCount := fixedCount + 1;
        i := i + 1;
      }
      totalFound := |missing|;
      assert missing[..i] == missing;
    }

    /** `api_signatories_approve`. The request is approved once none of its
        signatories is left unapproved; its fulfillment stays pending and
        nothing is transferred. */
    method ApproveSignatory(sid: nat, approver: string, signature: Option<string>, now: int) returns (reply: Reply)
      requires Valid()
      modifies this
      ensures Valid()
      ensures documents == old(documents) && transfers == old(transfers) && files == old(files)
      ensures notifications == old(notifications)
      ensures nextClearanceId == old(nextClearanceId) && nextSignatoryId == old(nextSignatoryId)
      ensures nextDocumentId == old(nextDocumentId)
      ensures sid == 0 || FindSignatory(old(signatories), sid).None? ==>
        reply == (if sid == 0 then Fail(400, "Missing signatory_id") else Fail(404, "Signatory not found"))
        && students == old(students) && clearances == old(clearances) && signatories == old(signatories)
      ensures sid != 0 && FindSignatory(old(signatories), sid).Some? ==>
        var k := FindSignatory(old(signatories), sid).value;
        var rid := old(signatories)[k].requestId;
        var owner := Owner(old(clearances), rid);
        var signed := if Given(signature) && owner != 0 then SetSignature(old(students), owner, signature.value) else old(students);
        var done := AfterSign(signatories, rid) == AllSigned;
        reply == Ok("")
        && signatories == old(signatories)[k := ApprovedBy(old(signatories)[k], approver, now)]
        && clearances == (if done then SetRequestStatus(old(clearances), rid, Approved, Pending, RegistrarPending) else old(clearances))
        && students == (if done && owner != 0 then SetStudentStatus(signed, owner, Approved) else signed)
    {
      if sid == 0 {
        reply := Fail(400, "Missing signatory_id");
        return;
      }
      var found := FindSignatory(signatories, sid);
      if found.None? {
        reply := Fail(404, "Signatory not found");
        return;
      }
      RecordApproval(found.value, approver, signature, now);
      reply := Ok("");
    }

    /** The updates of an approval of the signatory at position `k`. */
    method RecordApproval(k: nat, approver: string, signature: Option<string>, now: int)
      requires Valid() && k < |signatories|
      modifies this
      ensures Valid()
      ensures documents == old(documents) && transfers == old(transfers) && files == old(files)
      ensures notifications == old(notifications)
      ensures nextClearanceId == old(nextClearanceId) && nextSignatoryId == old(nextSignatoryId)
      ensures nextDocumentId == old(nextDocumentId)
      ensures
        var rid := old(signatories)[k].requestId;
        var owner := Owner(old(clearances), rid);
        var signed := if Given(signature) && owner != 0 then SetSignature(old(students), owner, signature.value) else old(students);
        var done := AfterSign(signatories, rid) == AllSigned;
        signatories == old(signatories)[k := ApprovedBy(old(signatories)[k], approver, now)]
        && clearances == (if done then SetRequestStatus(old(clearances), rid, Approved, Pending, RegistrarPending) else old(clearances))
        && students == (if done && owner != 0 then SetStudentStatus(signed, owner, Approved) else signed)
    {
      var rid := signatories[k].requestId;
      SignatoryUpdateValid(signatories, nextSignatoryId, k, ApprovedBy(signatories[k], approver, now));
      signatories := signatories[k := ApprovedBy(signatories[k], approver, now)];
      var owner := Owner(clearances, rid);
      if Given(signature) && owner != 0 {
        StoreSignature(owner, signature.value);
      }
      SettleApproval(rid, owner);
    }

    /** The signature an approval carries, kept on the student's row. */
    method StoreSignature(owner: nat, signature: string)
      requires Valid()
      modifies this
      ensures Valid()
      ensures signatories == old(signatories) && clearances == old(clearances)
      ensures documents == old(documents) && transfers == old(transfers)
      ensures files == old(files) && notifications == old(notifications)
      ensures nextClearanceId == old(nextClearanceId) && nextSignatoryId == old(nextSignatoryId)
      ensures nextDocumentId == old(nextDocumentId)
      ensures students == SetSignature(old(students), owner, signature)
    {
      students := SetSignature(students, owner, signature);
    }

    /** The tail of an approval: once no signatory of the request is left
        unapproved, the request and its student are approved. */
    method SettleApproval(rid: nat, owner: nat)
      requires Valid()
      modifies this
      ensures Valid()
      ensures signatories == old(signatories) && documents == old(documents) && transfers == old(transfers)
      ensures files == old(files) && notifications == old(notifications)
      ensures nextClearanceId == old(nextClearanceId) && nextSignatoryId == old(nextSignatoryId)
      ensures nextDocumentId == old(nextDocumentId)
      ensures var done := AfterSign(signatories, rid) == AllSigned;
        clearances == (if done then SetRequestStatus(old(clearances), rid, Approved, Pending, RegistrarPending) else old(clearances))
        && students == (if done && owner != 0 then SetStudentStatus(old(students), owner, Approved) else old(students))
    {
      var mine := SignatoriesOf(signatories, rid);
      var nonApproved := |mine| - CountStatus(mine, Approved);
      if nonApproved == 0 {
        SetRequestStatusValid(clearances, nextClearanceId, rid, Approved, Pending, RegistrarPending);
        clearances := SetRequestStatus(clearances, rid, Approved, Pending, RegistrarPending);
        if owner != 0 {
          students := SetStudentStatus(students, owner, Approved);
        }
      }
    }

    /** `api_signatories_reject`: one rejection rejects the whole request and
        tells the student why. */
    method RejectSignatory(sid: nat, rawReason: Option<string>, approver: string, now: int) returns (reply: Reply)
      requires Valid()
      modifies this
      ensures Valid()
      ensures documents == old(documents) && transfers == old(transfers) && files == old(files)
      ensures nextClearanceId == old(nextClearanceId) && nextSignatoryId == old(nextSignatoryId)
      ensures nextDocumentId == old(nextDocumentId)
      ensures var reason := Strip(rawReason.GetOr(""));
        sid == 0 || reason == [] || FindSignatory(old(signatories), sid).None? ==>
        reply == (if sid == 0 || reason == [] then Fail(400, "Missing signatory_id or reason") else Fail(404, "Signatory not found"))
        && students == old(students) && clearances == old(clearances) && signatories == old(signatories)
        && notifications == old(notifications)
      ensures var reason := Strip(rawReason.GetOr(""));
        sid != 0 && reason != [] && FindSignatory(old(signatories), sid).Some? ==>
        var k := FindSignatory(old(signatories), sid).value;
        var rid := old(signatories)[k].requestId;
        var owner := Owner(old(clearances), rid);
        reply == Ok("")
        && signatories == old(signatories)[k := RejectedBy(old(signatories)[k], approver, reason, now)]
        && clearances == SetRequestStatus(old(clearances), rid, Rejected, Rejected, RegistrarPending)
        && students == (if owner != 0 then SetStudentRejected(old(students), owner, reason, approver) else old(students))
        && notifications == old(notifications) + (if owner != 0 then [RejectionNotice(owner, approver, reason)] else [])
    {
      var reason := Strip(rawReason.GetOr(""));
      if sid == 0 || reason == [] {
        reply := Fail(400, "Missing signatory_id or reason");
        return;
      }
      var found := FindSignatory(signatories, sid);
      if found.None? {
        reply := Fail(404, "Signatory not found");
        return;
      }
      RecordRejection(found.value, reason, approver, now);
      reply := Ok("");
    }

    /** The updates of a rejection of the signatory at position `k`. */
    method RecordRejection(k: nat, reason: string, approver: string, now: int)
      requires Valid() && k < |signatories|
      modifies this
      ensures Valid()
      ensures documents == old(documents) && transfers == old(transfers) && files == old(files)
      ensures nextClearanceId == old(nextClearanceId) && nextSignatoryId == old(nextSignatoryId)
      ensures nextDocumentId == old(nextDocumentId)
      ensures
        var rid := old(signatories)[k].requestId;
        var owner := Owner(old(clearances), rid);
        signatories == old(signatories)[k := RejectedBy(old(signatories)[k], approver, reason, now)]
        && clearances == SetRequestStatus(old(clearances), rid, Rejected, Rejected, RegistrarPending)
        && students == (if owner != 0 then SetStudentRejected(old(students), owner, reason, approver) else old(students))
        && notifications == old(notifications) + (if owner != 0 then [RejectionNotice(owner, approver, reason)] else [])
    {
      var rid := signatories[k].requestId;
      SignatoryUpdateValid(signatories, nextSignatoryId, k, RejectedBy(signatories[k], approver, reason, now));
      signatories := signatories[k := RejectedBy(signatories[k], approver, reason, now)];
      SetRequestStatusValid(clearances, nextClearanceId, rid, Rejected, Rejected, RegistrarPending);
      OwnerKept(clearances, rid, Rejected, Rejected, RegistrarPending);
      clearances := SetRequestStatus(clearances, rid, Rejected, Rejected, RegistrarPending);
      var owner := Owner(clearances, rid);
      if owner != 0 {
        students := SetStudentRejected(students, owner, reason, approver);
        notifications := notifications + [RejectionNotice(owner, approver, reason)];
      }
    }

    /** `api_registrar_release`: the registrar signs the latest registrar row
        over the student's requests, then the request is settled as after any
        signature. */
    method RegistrarRelease(studentId: nat, signature: Option<string>, registrar: string, now: int) returns (reply: Reply)
      requires Valid()
      modifies this
      ensures Valid()
      ensures files == old(files) && notifications == old(notifications)
      ensures nextClearanceId == old(nextClearanceId) && nextSignatoryId == old(nextSignatoryId)
      ensures studentId == 0 || StudentRegistrar(old(signatories), old(clearances), studentId).None? ==>
        reply == (if studentId == 0 then Fail(400, "Missing student_id") else Fail(404, "Registrar signatory not found"))
        && students == old(students) && clearances == old(clearances) && signatories == old(signatories)
        && documents == old(documents) && transfers == old(transfers) && nextDocumentId == old(nextDocumentId)
      ensures studentId != 0 && StudentRegistrar(old(signatories), old(clearances), studentId).Some? ==>
        var k := StudentRegistrar(old(signatories), old(clearances), studentId).value;
        reply == Ok("")
        && signatories == old(signatories)[k := ReleasedBy(old(signatories)[k], registrar, now)]
        && students == (if Given(signature) then SetSignature(old(students), studentId, signature.value) else old(students))
        && AfterSignEffect(hasPurposeColumn, signatories, old(signatories)[k].requestId,
                           old(clearances), old(documents), old(transfers), old(nextDocumentId),
                           clearances, documents, transfers, nextDocumentId)
    {
      if studentId == 0 {
        reply := Fail(400, "Missing student_id");
        return;
      }
      var found := StudentRegistrar(signatories, clearances, studentId);
      if found.None? {
        reply := Fail(404, "Registrar signatory not found");
        return;
      }
      RecordRelease(found.value, studentId, signature, registrar, now);
      reply := Ok("");
    }

    /** The updates of a release of the registrar row at position `k`. */
    method RecordRelease(k: nat, studentId: nat, signature: Option<string>, registrar: string, now: int)
      requires Valid() && k < |signatories|
      modifies this
      ensures Valid()
      ensures files == old(files) && notifications == old(notifications)
      ensures nextClearanceId == old(nextClearanceId) && nextSignatoryId == old(nextSignatoryId)
      ensures signatories == old(signatories)[k := ReleasedBy(old(signatories)[k], registrar, now)]
      ensures students == (if Given(signature) then SetSignature(old(students), studentId, signature.value) else old(students))
      ensures AfterSignEffect(hasPurposeColumn, signatories, old(signatories)[k].requestId,
                              old(clearances), old(documents), old(transfers), old(nextDocumentId),
                              clearances, documents, transfers, nextDocumentId)
    {
      var rid := signatories[k].requestId;
      SignatoryUpdateValid(signatories, nextSignatoryId, k, ReleasedBy(signatories[k], registrar, now));
      signatories := signatories[k := ReleasedBy(signatories[k], registrar, now)];
      if Given(signature) {
        students := SetSignature(students, studentId, signature.value);
      }
      UpdateRequestStatusAfterSign(rid);
    }

    /** `api_registrar_reject`. */
    method RegistrarReject(rid: nat, rawReason: Option<string>) returns (reply: Reply)
      requires Valid()
      modifies this
      ensures Valid()
      ensures students == old(students) && documents == old(documents) && transfers == old(transfers)
      ensures files == old(files) && notifications == old(notifications)
      ensures nextClearanceId == old(nextClearanceId) && nextSignatoryId == old(nextSignatoryId)
      ensures nextDocumentId == old(nextDocumentId)
      ensures var reason := Strip(rawReason.GetOr(""));
        rid == 0 || reason == [] || RegistrarOf(old(signatories), rid).None? ==>
        reply == (if rid == 0 || reason == [] then Fail(400, "Missing request_id or reason") else Fail(404, "Registrar signatory not found"))
        && clearances == old(clearances) && signatories == old(signatories)
      ensures var reason := Strip(rawReason.GetOr(""));
        rid != 0 && reason != [] && RegistrarOf(old(signatories), rid).Some? ==>
        var k := RegistrarOf(old(signatories), rid).value;
        reply == Ok("")
        && signatories == old(signatories)[k := old(signatories)[k].(status := Rejected, rejectionReason := Some(reason))]
        && clearances == SetRequestStatus(old(clearances), rid, Rejected, Rejected, RegistrarPending)
    {
      var reason := Strip(rawReason.GetOr(""));
      if rid == 0 || reason == [] {
        reply := Fail(400, "Missing request_id or reason");
        return;
      }
      var found := RegistrarOf(signatories, rid);
      if found.None? {
        reply := Fail(404, "Registrar signatory not found");
        return;
      }
      var k := found.value;
      var rejected := signatories[k].(status := Rejected, rejectionReason := Some(reason));
      SignatoryUpdateValid(signatories, nextSignatoryId, k, rejected);
      signatories := signatories[k := rejected];
      SetRequestStatusValid(clearances, nextClearanceId, rid, Rejected, Rejected, RegistrarPending);
      clearances := SetRequestStatus(clearances, rid, Rejected, Rejected, RegistrarPending);
      reply := Ok("");
    }

    /** `api_registrar_move_to_pending`: an approved request goes back to
        pending together with its registrar row. */
    method MoveToPending(rid: nat) returns (reply: Reply)
      requires Valid()
      modifies this
      ensures Valid()
      ensures students == old(students) && documents == old(documents) && transfers == old(transfers)
      ensures files == old(files) && notifications == old(notifications)
      ensures nextClearanceId == old(nextClearanceId) && nextSignatoryId == old(nextSignatoryId)
      ensures nextDocumentId == old(nextDocumentId)
      ensures rid == 0 ==> reply == Fail(400, "Missing request_id")
      ensures rid != 0 && FindClearance(old(clearances), rid).None? ==> reply == Fail(404, "Request not found")
      ensures rid != 0 && FindClearance(old(clearances), rid).Some?
              && old(clearances)[FindClearance(old(clearances), rid).value].status != Approved ==>
        reply == Fail(400, "Request is not in approved status")
      ensures rid != 0 && FindClearance(old(clearances), rid).Some?
              && old(clearances)[FindClearance(old(clearances), rid).value].status == Approved
              && RegistrarOf(old(signatories), rid).None? ==>
        reply == Fail(404, "Registrar signatory not found")
      ensures reply.Fail? ==> clearances == old(clearances) && signatories == old(signatories)
      ensures reply.Ok? <==>
        rid != 0 && FindClearance(old(clearances), rid).Some?
        && old(clearances)[FindClearance(old(clearances), rid).value].status == Approved
        && RegistrarOf(old(signatories), rid).Some?
      ensures reply.Ok? ==>
        var k := RegistrarOf(old(signatories), rid).value;
        reply == Ok("Clearance moved to pending successfully")
        && signatories == old(signatories)[k := Reopened(old(signatories)[k])]
        && clearances == SetRequestStatus(old(clearances), rid, Pending, Pending, RegistrarPending)
    {
      if rid == 0 {
        reply := Fail(400, "Missing request_id");
        return;
      }
      var row := FindClearance(clearances, rid);
      if row.None? {
        reply := Fail(404, "Request not found");
        return;
      }
      if clearances[row.value].status != Approved {
        reply := Fail(400, "Request is not in approved status");
        return;
      }
      var found := RegistrarOf(signatories, rid);
      if found.None? {
        reply := Fail(404, "Registrar signatory not found");
        return;
      }
      ReopenRequest(rid, found.value);
      reply := Ok("Clearance moved to pending successfully");
    }

    /** The updates of `api_registrar_move_to_pending`: the registrar row at
        position `k` and the request go back to pending. */
    method ReopenRequest(rid: nat, k: nat)
      requires Valid() && k < |signatories|
      modifies this
      ensures Valid()
      ensures students == old(students) && documents == old(documents) && transfers == old(transfers)
      ensures files == old(files) && notifications == old(notifications)
      ensures nextClearanceId == old(nextClearanceId) && nextSignatoryId == old(nextSignatoryId)
      ensures nextDocumentId == old(nextDocumentId)
      ensures signatories == old(signatories)[k := Reopened(old(signatories)[k])]
      ensures clearances == SetRequestStatus(old(clearances), rid, Pending, Pending, RegistrarPending)
    {
      SignatoryUpdateValid(signatories, nextSignatoryId, k, Reopened(signatories[k]));
      signatories := signatories[k := Reopened(signatories[k])];
      SetRequestStatusValid(clearances, nextClearanceId, rid, Pending, Pending, RegistrarPending);
      clearances := SetRequestStatus(clearances, rid, Pending, Pending, RegistrarPending);
    }

    /** `api_registrar_mark_processing`, `api_registrar_mark_released` and
        `api_registrar_mark_unclaimed`: one update of the request's three
        statuses, whether or not the request exists. */
    method RegistrarMark(rid: nat, stage: Stage) returns (reply: Reply)
      requires Valid()
      modifies this
      ensures Valid()
      ensures students == old(students) && signatories == old(signatories) && documents == old(documents)
      ensures transfers == old(transfers) && files == old(files) && notifications == old(notifications)
      ensures nextClearanceId == old(nextClearanceId) && nextSignatoryId == old(nextSignatoryId)
      ensures nextDocumentId == old(nextDocumentId)
      ensures rid == 0 ==> reply == Fail(400, "Missing request_id") && clearances == old(clearances)
      ensures rid != 0 ==>
        reply == Ok("") && clearances == SetRequestStatus(old(clearances), rid, StageStatus(stage), StageStatus(stage), StageRegistrar(stage))
    {
      if rid == 0 {
        reply := Fail(400, "Missing request_id");
        return;
      }
      SetRequestStatusValid(clearances, nextClearanceId, rid, StageStatus(stage), StageStatus(stage), StageRegistrar(stage));
      clearances := SetRequestStatus(clearances, rid, StageStatus(stage), StageStatus(stage), StageRegistrar(stage));
      reply := Ok("");
    }

    /** `api_registrar_document_mark_processing`: a document request linked
        to a clearance moves only once every office approved it. */
    method DocumentMarkProcessing(did: nat) returns (reply: Reply)
      requires Valid()
      modifies this
      ensures Valid()
      ensures students == old(students) && clearances == old(clearances) && signatories == old(signatories)
      ensures transfers == old(transfers) && files == old(files)
      ensures nextClearanceId == old(nextClearanceId) && nextSignatoryId == old(nextSignatoryId)
      ensures nextDocumentId == old(nextDocumentId)
      ensures did == 0 ==>
        reply == Fail(400, "Missing request_id") && documents == old(documents) && notifications == old(notifications)
      ensures did != 0 && LinkedClearance(old(documents), did).Some? ==>
        var gate := ProcessingGate(signatories, LinkedClearance(old(documents), did).value);
        reply == GateReply(gate) && gate != GateIncomplete
      ensures did != 0 && LinkedClearance(old(documents), did).None? ==> reply == Ok("Document moved to processing.")
      ensures did != 0 && reply.Fail? ==> documents == old(documents) && notifications == old(notifications)
      ensures reply.Ok? ==>
        documents == SetDocumentStatus(old(documents), did, Processing)
        && notifications == old(notifications)
             + DocumentNotice(old(documents), did, "processing", "Processing", "Your request is now in the Processing Phase.")
    {
      if did == 0 {
        reply := Fail(400, "Missing request_id");
        return;
      }
      var linked := LinkedClearance(documents, did);
      if linked.Some? {
        var gate := ProcessingGate(signatories, linked.value);
        NoIncompleteGate(signatories, linked.value);
        if gate != GateApproved {
          reply := GateReply(gate);
          return;
        }
        reply := GateReply(gate);
      } else {
        reply := Ok("Document moved to processing.");
      }
      StartProcessing(did);
    }

    /** The updates of the document mark-processing endpoint once it lets
        the document through. */
    method StartProcessing(did: nat)
      requires Valid()
      modifies this
      ensures Valid()
      ensures students == old(students) && clearances == old(clearances) && signatories == old(signatories)
      ensures transfers == old(transfers) && files == old(files)
      ensures nextClearanceId == old(nextClearanceId) && nextSignatoryId == old(nextSignatoryId)
      ensures nextDocumentId == old(nextDocumentId)
      ensures documents == SetDocumentStatus(old(documents), did, Processing)
      ensures notifications == old(notifications)
        + DocumentNotice(old(documents), did, "processing", "Processing", "Your request is now in the Processing Phase.")
    {
      DocumentStatusKept(documents, did, Processing, did);
      SetDocumentStatusValid(documents, nextDocumentId, did, Processing);
      var notice := DocumentNotice(documents, did, "processing", "Processing", "Your request is now in the Processing Phase.");
      documents := SetDocumentStatus(documents, did, Processing);
      notifications := notifications + notice;
    }

    /** The common tail of the complete, mark-released and mark-unclaimed
        endpoints: the document's status, the joined update of its clearance
        and the notice. */
    method FinishDocument(did: nat, st: Status, action: string, phase: string, message: string)
      requires Valid()
      modifies this
      ensures Valid()
      ensures students == old(students) && signatories == old(signatories)
      ensures transfers == old(transfers) && files == old(files)
      ensures nextClearanceId == old(nextClearanceId) && nextSignatoryId == old(nextSignatoryId)
      ensures nextDocumentId == old(nextDocumentId)
      ensures documents == SetDocumentStatus(old(documents), did, st)
      ensures clearances == SetFulfillment(old(clearances), LinkedClearance(old(documents), did), st, RegistrarComplete)
      ensures notifications == old(notifications) + DocumentNotice(old(documents), did, action, phase, message)
    {
      DocumentStatusKept(documents, did, st, did);
      SetDocumentStatusValid(documents, nextDocumentId, did, st);
      SetFulfillmentValid(clearances, nextClearanceId, LinkedClearance(documents, did), st, RegistrarComplete);
      var notice := DocumentNotice(documents, did, action, phase, message);
      clearances := SetFulfillment(clearances, LinkedClearance(documents, did), st, RegistrarComplete);
      documents := SetDocumentStatus(documents, did, st);
      notifications := notifications + notice;
    }

    /** The upload loop of `api_registrar_document_complete`: one file row per
        named upload. The foreign key makes the first row fail when the
        document does not exist, and that stops the loop. The row for every
        named upload names the same document, so nothing was inserted before
        the failure, and the autocommit connection has nothing to keep. */
    method SaveUploads(did: nat, uploads: seq<string>) returns (stored: bool, saved: seq<string>)
      requires Valid()
      modifies this
      ensures Valid()
      ensures students == old(students) && signatories == old(signatories) && transfers == old(transfers)
      ensures documents == old(documents) && clearances == old(clearances) && notifications == old(notifications)
      ensures nextClearanceId == old(nextClearanceId) && nextSignatoryId == old(nextSignatoryId)
      ensures nextDocumentId == old(nextDocumentId)
      ensures !stored <==> NamedUploads(uploads) != [] && FindDocument(documents, did).None?
      ensures stored ==> saved == NamedUploads(uploads) && files == old(files) + FileRows(did, saved)
      ensures !stored ==> saved == [] && files == old(files)
    {
      saved := [];
      var rows: seq<DocumentFile> := [];
      var i := 0;
      while i < |uploads|
        invariant 0 <= i <= |uploads|
        invariant saved == NamedUploads(uploads[..i])
        invariant rows == FileRows(did, saved)
        invariant FindDocument(documents, did).None? ==> saved == []
        modifies {}
      {
        NamedUploadsSnoc(uploads, i);
        if uploads[i] != [] {
          if FindDocument(documents, did).None? {
            NamedUploadsNonEmpty(uploads, i);
            saved := [];
            stored := false;
            return;
          }
          rows := rows + [DocumentFile(did, uploads[i])];
          saved := saved + [uploads[i]];
        }
        i := i + 1;
      }
      assert uploads[..i] == uploads;
      files := files + rows;
      stored := true;
    }

    /** `api_registrar_document_complete`: the named uploads are recorded,
        then the document is completed. Recording a file for a document that
        does not exist breaks the foreign key. */
    method DocumentComplete(did: nat, uploads: seq<string>) returns (reply: Reply, saved: seq<string>)
      requires Valid()
      modifies this
      ensures Valid()
      ensures students == old(students) && signatories == old(signatories) && transfers == old(transfers)
      ensures nextClearanceId == old(nextClearanceId) && nextSignatoryId == old(nextSignatoryId)
      ensures nextDocumentId == old(nextDocumentId)
      ensures reply.Fail? <==> did == 0 || (NamedUploads(uploads) != [] && FindDocument(old(documents), did).None?)
      ensures reply.Fail? ==>
        reply == (if did == 0 then Fail(400, "Missing request_id") else Fail(500, "Error: foreign key constraint fails"))
        && saved == [] && documents == old(documents) && clearances == old(clearances)
        && files == old(files) && notifications == old(notifications)
      ensures reply.Ok? ==>
        reply == Ok("") && saved == NamedUploads(uploads)
        && files == old(files) + FileRows(did, saved)
        && documents == SetDocumentStatus(old(documents), did, Completed)
        && clearances == SetFulfillment(old(clearances), LinkedClearance(old(documents), did), Completed, RegistrarComplete)
        && notifications == old(notifications)
             + DocumentNotice(old(documents), did, "completed", "Completed", "Your document moved to Completed Phase.")
    {
      saved := [];
      if did == 0 {
        reply := Fail(400, "Missing request_id");
        return;
      }
      var stored;
      stored, saved := SaveUploads(did, uploads);
      if !stored {
        reply := Fail(500, "Error: foreign key constraint fails");
        return;
      }
      FinishDocument(did, Completed, "completed", "Completed", "Your document moved to Completed Phase.");
      reply := Ok("");
    }

    /** `api_registrar_document_mark_released`. */
    method DocumentMarkReleased(did: nat) returns (reply: Reply)
      requires Valid()
      modifies this
      ensures Valid()
      ensures students == old(students) && signatories == old(signatories)
      ensures transfers == old(transfers) && files == old(files)
      ensures nextClearanceId == old(nextClearanceId) && nextSignatoryId == old(nextSignatoryId)
      ensures nextDocumentId == old(nextDocumentId)
      ensures did == 0 ==>
        reply == Fail(400, "Missing request_id")
        && documents == old(documents) && clearances == old(clearances) && notifications == old(notifications)
      ensures did != 0 ==>
        reply == Ok("")
        && documents == SetDocumentStatus(old(documents), did, Released)
        && clearances == SetFulfillment(old(clearances), LinkedClearance(old(documents), did), Released, RegistrarComplete)
        && notifications == old(notifications)
             + DocumentNotice(old(documents), did, "released", "Released", "Your document has been released.")
    {
      if did == 0 {
        reply := Fail(400, "Missing request_id");
        return;
      }
      FinishDocument(did, Released, "released", "Released", "Your document has been released.");
      reply := Ok("");
    }

    /** `api_registrar_document_mark_unclaimed`. */
    method DocumentMarkUnclaimed(did: nat) returns (reply: Reply)
      requires Valid()
      modifies this
      ensures Valid()
      ensures students == old(students) && signatories == old(signatories)
      ensures transfers == old(transfers) && files == old(files)
      ensures nextClearanceId == old(nextClearanceId) && nextSignatoryId == old(nextSignatoryId)
      ensures nextDocumentId == old(nextDocumentId)
      ensures did == 0 ==>
        reply == Fail(400, "Missing request_id")
        && documents == old(documents) && clearances == old(clearances) && notifications == old(notifications)
      ensures did != 0 ==>
        reply == Ok("")
        && documents == SetDocumentStatus(old(documents), did, Unclaimed)
        && clearances == SetFulfillment(old(clearances), LinkedClearance(old(documents), did), Unclaimed, RegistrarComplete)
        && notifications == old(notifications)
             + DocumentNotice(old(documents), did, "unclaimed", "Unclaimed", "Your document is unclaimed.")
    {
      if did == 0 {
        reply := Fail(400, "Missing request_id");
        return;
      }
      FinishDocument(did, Unclaimed, "unclaimed", "Unclaimed", "Your document is unclaimed.");
      reply := Ok("");
    }
  }

  /** Some document request is linked to request `rid`. */
  predicate Linked(ds: seq<DocumentRequest>, rid: nat) {
    exists j :: 0 <= j < |ds| && ds[j].clearanceId == Some(rid)
  }

  /** Every request of `cs` has a document request linked to it. */
  predicate AllLinked(ds: seq<DocumentRequest>, cs: seq<Clearance>) {
    forall c :: c in cs ==> Linked(ds, c.id)
  }

  lemma AllLinkedStep(ds0: seq<DocumentRequest>, ds: seq<DocumentRequest>, cs: seq<Clearance>, i: nat)
    requires i < |cs| && ds0 <= ds
    requires AllLinked(ds0, cs[..i]) && Linked(ds, cs[i].id)
    ensures AllLinked(ds, cs[..i + 1])
  {
    forall c | c in cs[..i + 1] ensures Linked(ds, c.id) {
      if c != cs[i] {
        assert c in cs[..i];
        LinkedGrows(ds0, ds, c.id);
      }
    }
  }

  lemma LinkedGrows(ds0: seq<DocumentRequest>, ds: seq<DocumentRequest>, rid: nat)
    requires ds0 <= ds && Linked(ds0, rid)
    ensures Linked(ds, rid)
  {
    var j :| 0 <= j < |ds0| && ds0[j].clearanceId == Some(rid);
    assert ds[j] == ds0[j];
  }

  /** After a transfer of a request that is in the table, some document
      request is linked to it. */
  lemma TransferLinks(cs: seq<Clearance>, ds0: seq<DocumentRequest>, ts0: seq<TransferLog>, next0: nat,
                      ds: seq<DocumentRequest>, ts: seq<TransferLog>, next: nat, c: Clearance)
    requires c in cs
    requires Transferred(ds0, ts0, next0, ds, ts, next, TransferRows(true, cs, ds0, c.id, next0))
    ensures Linked(ds, c.id)
  {
    var t := TransferRows(true, cs, ds0, c.id, next0);
    assert FindClearance(cs, c.id).Some?;
    if t.Some? {
      assert ds[|ds0|] == t.value.document;
    } else {
      var k := FindClearance(cs, c.id).value;
      var j :| 0 <= j < |ds0| && ds0[j].studentId == cs[k].studentId && ds0[j].clearanceId == Some(c.id);
      assert ds[j] == ds0[j];
    }
  }
}
