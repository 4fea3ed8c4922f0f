/** The rows of the clearance tables (clearance_requests, clearance_signatories,
    document_requests, document_files, auto_transfer_logs, notifications and
    the part of students the clearance flow touches) and the pure rules over
    them: the dean office of a course, the signatories of a new request, the
    aggregate decisions over a request's signatories, the duplicate filter,
    the transfer bridge, and the row updates the endpoints perform. */
module Records {
  import opened Wrappers
  import opened Text
  import opened Sorting

  /** Every value a status column is given. The database's ENUM domains are
      narrower (fulfillment_status has no 'Approved', status no 'Processing')
      and are not enforced here. */
  datatype Status = Pending | Approved | Rejected | Processing | Completed | Released | Unclaimed

  /** registrar_status. */
  datatype RegistrarStatus = RegistrarPending | RegistrarProcessing | RegistrarComplete

  /** Where the payment receipt of a request is kept: nowhere, as base64 text
      in the row, or in the S3 bucket. */
  datatype Receipt = NoReceipt | InlineReceipt(data: string) | S3Receipt(url: string, key: string)

  datatype Student = Student(
    id: nat,
    email: string,
    courseCode: Option<string>,
    hasClearanceRequest: bool,
    status: Status,
    signature: Option<string>,
    rejectionReason: Option<string>,
    approvedBy: Option<string>)

  /** A clearance_requests row. `documents` and `purposes` hold the lists
      whose JSON text the columns store (None is NULL); `purpose` is the
      column the transfer bridge reads, which only a schema that has it can
      hold and which a new request never sets. */
  datatype Clearance = Clearance(
    id: nat,
    studentId: nat,
    status: Status,
    fulfillment: Status,
    registrar: RegistrarStatus,
    documentType: string,
    documents: Option<seq<string>>,
    purposes: Option<seq<string>>,
    purpose: Option<string>,
    reason: Option<string>,
    paymentMethod: string,
    paymentAmount: string,
    receipt: Receipt,
    referenceNumber: Option<string>,
    createdAt: int,
    pickupDate: Option<int>)

  datatype Signatory = Signatory(
    id: nat,
    requestId: nat,
    office: string,
    status: Status,
    signedBy: Option<string>,
    signedAt: Option<int>,
    rejectionReason: Option<string>)

  datatype DocumentRequest = DocumentRequest(
    id: nat,
    studentId: nat,
    documentType: string,
    purpose: string,
    status: Status,
    clearanceId: Option<nat>,
    pickupDate: Option<int>)

  datatype DocumentFile = DocumentFile(documentId: nat, originalName: string)

  datatype TransferLog = TransferLog(clearanceId: nat, documentId: nat, studentId: nat, reason: string)

  datatype Notification = Notification(studentId: nat, staffName: string, action: string, phase: string, message: string)

  /** The JSON reply of an endpoint: `ok` true, or an error with its HTTP code. */
  datatype Reply = Ok(message: string) | Fail(code: nat, message: string)

  const ComputerLaboratory: string := "Computer Laboratory"
  const RegistrarOffice: string := "Registrar"
  const AutoApprover: string := "System Auto-Approval"
  const DefaultDocumentType: string := "Registrar Documents"
  const TransferDocumentsDefault: string := "Clearance Documents"
  const TransferPurposeDefault: string := "Clearance Processing"
  const TransferReason: string := "All office clearances approved"

  // ---------------------------------------------------------------------
  // A new request's signatories

  /** `_derive_dean_office`: the dean who signs for a course. */
  function DeriveDeanOffice(courseCode: Option<string>): (r: string)
    ensures var code := Upper(courseCode.GetOr(""));
      (r == "Dean of CoEd" <==> code == "BEED" || code == "BSED")
      && (r == "Dean of HM" <==> code == "BSHM")
      && (r == "Dean of CS" <==> code != "BEED" && code != "BSED" && code != "BSHM")
  {
    var code := Upper(courseCode.GetOr(""));
    if code == "BEED" || code == "BSED" then "Dean of CoEd"
    else if code == "BSHM" then "Dean of HM"
    else if code == "BSCS" || code == "ACT" then "Dean of CS"
    else "Dean of CS"
  }

  /** The offices of a new request, in signing order. */
  function Offices(deanOffice: string): seq<string> {
    [ComputerLaboratory, "Guidance Office", "Student Affairs", "Library",
     deanOffice, "Accounting", "Property Custodian", RegistrarOffice]
  }

  /** The signatory row inserted for one office. The laboratory signs by
      itself unless the course code is exactly "BSCS". */
  function OfficeSignatory(requestId: nat, id: nat, office: string, courseCode: Option<string>, now: int): (r: Signatory)
    ensures r.id == id && r.requestId == requestId && r.office == office && r.rejectionReason.None?
    ensures r.status == Approved <==> office == ComputerLaboratory && courseCode != Some("BSCS")
    ensures r.status != Approved ==> r.status == Pending && r.signedBy.None? && r.signedAt.None?
    ensures r.status == Approved ==> r.signedBy == Some(AutoApprover) && r.signedAt == Some(now)
  {
    if office == ComputerLaboratory && courseCode != Some("BSCS") then
      Signatory(id, requestId, office, Approved, Some(AutoApprover), Some(now), None)
    else
      Signatory(id, requestId, office, Pending, None, None, None)
  }

  /** The rows inserted for `offices`, with consecutive ids from `firstId`. */
  function NewSignatories(requestId: nat, firstId: nat, offices: seq<string>, courseCode: Option<string>, now: int): seq<Signatory> {
    seq(|offices|, i requires 0 <= i < |offices| => OfficeSignatory(requestId, firstId + i, offices[i], courseCode, now))
  }

  /** The sequence a new request gets, for its course code. */
  function RequestSignatories(requestId: nat, firstId: nat, courseCode: Option<string>, now: int): seq<Signatory> {
    NewSignatories(requestId, firstId, Offices(DeriveDeanOffice(courseCode)), courseCode, now)
  }

  /** A new request gets eight signatories in the fixed order; only the
      laboratory can start approved, and it does exactly when the course is
      not BSCS. */
  lemma NewRequestSignatories(requestId: nat, firstId: nat, courseCode: Option<string>, now: int)
    ensures var sigs := RequestSignatories(requestId, firstId, courseCode, now);
      |sigs| == 8
      && (forall i :: 0 <= i < 8 ==> sigs[i].requestId == requestId && sigs[i].id == firstId + i
                                     && sigs[i].rejectionReason.None?)
      && sigs[0].office == "Computer Laboratory" && sigs[1].office == "Guidance Office"
      && sigs[2].office == "Student Affairs" && sigs[3].office == "Library"
      && sigs[4].office == DeriveDeanOffice(courseCode) && sigs[5].office == "Accounting"
      && sigs[6].office == "Property Custodian" && sigs[7].office == "Registrar"
    ensures var sigs := RequestSignatories(requestId, firstId, courseCode, now);
      (sigs[0].status == Approved <==> courseCode != Some("BSCS"))
      && (sigs[0].status == Approved ==> sigs[0].signedBy == Some(AutoApprover) && sigs[0].signedAt == Some(now))
      && (sigs[0].status != Approved ==> sigs[0].status == Pending && sigs[0].signedBy.None?)
      && (forall i :: 1 <= i < 8 ==> sigs[i].status == Pending && sigs[i].signedBy.None? && sigs[i].signedAt.None?)
  {
    RequestSignatoriesRows(requestId, firstId, courseCode, now);
    var dean := DeriveDeanOffice(courseCode);
    DeanIsNotLaboratory(courseCode);
    OfficesShape(dean);
  }

  /** The rows of a new request, one per office of the fixed list. */
  lemma RequestSignatoriesRows(requestId: nat, firstId: nat, courseCode: Option<string>, now: int)
    ensures var sigs := RequestSignatories(requestId, firstId, courseCode, now);
      var offices := Offices(DeriveDeanOffice(courseCode));
      |sigs| == 8
      && forall i :: 0 <= i < 8 ==> sigs[i] == OfficeSignatory(requestId, firstId + i, offices[i], courseCode, now)
  {
  }

  lemma DeanIsNotLaboratory(courseCode: Option<string>)
    ensures DeriveDeanOffice(courseCode) != ComputerLaboratory
  {
    var dean := DeriveDeanOffice(courseCode);
    assert |dean| < |ComputerLaboratory|;
  }

  /** Only the first office of a request is the laboratory. */
  lemma OfficesShape(dean: string)
    requires dean != ComputerLaboratory
    ensures |Offices(dean)| == 8 && Offices(dean)[0] == ComputerLaboratory
    ensures forall i :: 1 <= i < 8 ==> Offices(dean)[i] != ComputerLaboratory
  {
    var o := Offices(dean);
    assert |o[1]| != |ComputerLaboratory| && |o[2]| != |ComputerLaboratory| && |o[3]| != |ComputerLaboratory|;
    assert |o[5]| != |ComputerLaboratory| && |o[6]| != |ComputerLaboratory| && |o[7]| != |ComputerLaboratory|;
  }

  lemma NewSignatoriesSnoc(requestId: nat, firstId: nat, offices: seq<string>, k: nat, courseCode: Option<string>, now: int)
    requires k < |offices|
    ensures NewSignatories(requestId, firstId, offices[..k + 1], courseCode, now)
         == NewSignatories(requestId, firstId, offices[..k], courseCode, now)
            + [OfficeSignatory(requestId, firstId + k, offices[k], courseCode, now)]
  {
  }

  // ---------------------------------------------------------------------
  // Counting a request's signatories

  /** The signatories of request `rid`, in table order. */
  function SignatoriesOf(sigs: seq<Signatory>, rid: nat): (r: seq<Signatory>)
    ensures |r| <= |sigs|
    ensures forall s :: s in r <==> s in sigs && s.requestId == rid
  {
    if sigs == [] then []
    else (if sigs[0].requestId == rid then [sigs[0]] else []) + SignatoriesOf(sigs[1..], rid)
  }

  /** How many of `sigs` have status `st`. */
  function CountStatus(sigs: seq<Signatory>, st: Status): (n: nat)
    ensures n <= |sigs|
    ensures n > 0 <==> exists s :: s in sigs && s.status == st
    ensures n == |sigs| <==> forall s :: s in sigs ==> s.status == st
  {
    if sigs == [] then 0
    else
      assert forall s :: s in sigs <==> s == sigs[0] || s in sigs[1..];
      (if sigs[0].status == st then 1 else 0) + CountStatus(sigs[1..], st)
  }

  /** Only the database's three signatory statuses occur. */
  predicate SignatoryStatusesValid(sigs: seq<Signatory>) {
    forall i :: 0 <= i < |sigs| ==> sigs[i].status in {Pending, Approved, Rejected}
  }

  lemma {:induction false} CountStatusesPartition(sigs: seq<Signatory>)
    requires SignatoryStatusesValid(sigs)
    ensures CountStatus(sigs, Approved) + CountStatus(sigs, Rejected) + CountStatus(sigs, Pending) == |sigs|
  {
    if sigs != [] {
      CountStatusesPartition(sigs[1..]);
    }
  }

  lemma SignatoriesOfValid(sigs: seq<Signatory>, rid: nat)
    requires SignatoryStatusesValid(sigs)
    ensures SignatoryStatusesValid(SignatoriesOf(sigs, rid))
  {
    var r := SignatoriesOf(sigs, rid);
    forall i | 0 <= i < |r| ensures r[i].status in {Pending, Approved, Rejected} {
      assert r[i] in sigs;
    }
  }

  /** What `_update_request_status_after_sign` decides. */
  datatype SignOutcome = SomeRejected | AllSigned | StillOpen

  /** A rejection decides; otherwise a request none of whose signatories is
      short of approval is signed off (a request without signatories
      included); otherwise it stays open. */
  function AfterSign(sigs: seq<Signatory>, rid: nat): (r: SignOutcome)
    ensures r == SomeRejected <==> exists s :: s in sigs && s.requestId == rid && s.status == Rejected
    ensures r == AllSigned <==> forall s :: s in sigs && s.requestId == rid ==> s.status == Approved
    ensures r == StillOpen <==>
      (exists s :: s in sigs && s.requestId == rid && s.status != Approved)
      && (forall s :: s in sigs && s.requestId == rid ==> s.status != Rejected)
  {
    var mine := SignatoriesOf(sigs, rid);
    var rejected := CountStatus(mine, Rejected);
    var notApproved := |mine| - CountStatus(mine, Approved);
    if rejected > 0 then SomeRejected
    else if notApproved == 0 then AllSigned
    else StillOpen
  }

  /** The checks of the document mark-processing endpoint on a document
      linked to a clearance. */
  datatype Gate = GateNoSignatories | GateRejected | GatePending | GateIncomplete | GateApproved

  /** The checks run in this order: any rejection refuses, then any pending
      office refuses, then any office not approved refuses; a clearance
      without signatories makes the sums NULL and the comparison raises. */
  function ProcessingGate(sigs: seq<Signatory>, cid: nat): (g: Gate)
    ensures g == GateNoSignatories <==> forall s :: s in sigs ==> s.requestId != cid
    ensures g == GateRejected <==> exists s :: s in sigs && s.requestId == cid && s.status == Rejected
    ensures g == GatePending <==>
      (exists s :: s in sigs && s.requestId == cid && s.status == Pending)
      && (forall s :: s in sigs && s.requestId == cid ==> s.status != Rejected)
    ensures g == GateApproved <==>
      (exists s :: s in sigs && s.requestId == cid)
      && (forall s :: s in sigs && s.requestId == cid ==> s.status == Approved)
  {
    var mine := SignatoriesOf(sigs, cid);
    var total := |mine|;
    if total == 0 then GateNoSignatories
    else if CountStatus(mine, Rejected) > 0 then GateRejected
    else if CountStatus(mine, Pending) > 0 then GatePending
    else if CountStatus(mine, Approved) != total then GateIncomplete
    else GateApproved
  }

  /** With only the database's three statuses the 'incomplete' refusal
      cannot happen. */
  lemma NoIncompleteGate(sigs: seq<Signatory>, cid: nat)
    requires SignatoryStatusesValid(sigs)
    ensures ProcessingGate(sigs, cid) != GateIncomplete
  {
    SignatoriesOfValid(sigs, cid);
    CountStatusesPartition(SignatoriesOf(sigs, cid));
  }

  // ---------------------------------------------------------------------
  // api_registrar_check_all_clearances_approved

  /** The signatories with status `st`. */
  function WithStatus(sigs: seq<Signatory>, st: Status): (r: seq<Signatory>)
    ensures |r| == CountStatus(sigs, st)
    ensures forall s :: s in r <==> s in sigs && s.status == st
  {
    if sigs == [] then []
    else (if sigs[0].status == st then [sigs[0]] else []) + WithStatus(sigs[1..], st)
  }

  function OfficeNames(sigs: seq<Signatory>): seq<string> {
    seq(|sigs|, i requires 0 <= i < |sigs| => sigs[i].office)
  }

  datatype ApprovalCheck =
    | MissingRequestId
    | NoSignatoriesFound
    | Summary(allApproved: bool, total: nat, approved: nat, pending: nat, rejected: nat,
              pendingOffices: seq<string>, rejectedOffices: seq<string>, message: string)

  /** The sorted office list of one status is as long as that status's count. */
  lemma SortedOfficeCount(mine: seq<Signatory>, st: Status)
    ensures |Sort(OfficeNames(WithStatus(mine, st)))| == CountStatus(mine, st)
  {
    var names := OfficeNames(WithStatus(mine, st));
    assert |Sort(names)| == |multiset(Sort(names))| == |multiset(names)| == |names|;
  }

  /** Every signatory of a request approved exactly when the approved count
      is the total and none is rejected. */
  lemma AllApprovedCount(sigs: seq<Signatory>, rid: nat)
    ensures var mine := SignatoriesOf(sigs, rid);
      (CountStatus(mine, Approved) == |mine| && CountStatus(mine, Rejected) == 0)
      <==> forall s :: s in sigs && s.requestId == rid ==> s.status == Approved
  {
  }

  /** The summary's message: all approved, else the offices still waited
      for, else the offices that rejected. */
  function SummaryMessage(allApproved: bool, pendingOffices: seq<string>, rejectedOffices: seq<string>): (r: string)
    ensures allApproved ==> r == "All clearances approved"
    ensures !allApproved && pendingOffices != [] ==>
      StartsWith(r, "Waiting for " + NatToString(|pendingOffices|) + " office(s): ")
    ensures !allApproved && pendingOffices == [] ==> StartsWith(r, "Rejected by: ")
  {
    if allApproved then "All clearances approved"
    else if pendingOffices != [] then
      "Waiting for " + NatToString(|pendingOffices|) + " office(s): " + Join(pendingOffices, ", ")
    else "Rejected by: " + Join(rejectedOffices, ", ")
  }

  /** The summary for one request that has signatories; the offices are
      listed in the order of their names (the query sorts by office). */
  function Tally(sigs: seq<Signatory>, rid: nat): (r: ApprovalCheck)
    requires SignatoriesOf(sigs, rid) != []
    ensures r.Summary?
    ensures var mine := SignatoriesOf(sigs, rid);
      (r.allApproved <==> forall s :: s in sigs && s.requestId == rid ==> s.status == Approved)
      && r.total == |mine| > 0
      && SortedStrings(r.pendingOffices) && SortedStrings(r.rejectedOffices)
      && multiset(r.pendingOffices) == multiset(OfficeNames(WithStatus(mine, Pending)))
      && multiset(r.rejectedOffices) == multiset(OfficeNames(WithStatus(mine, Rejected)))
      && |r.pendingOffices| == r.pending && |r.rejectedOffices| == r.rejected
      && (SignatoryStatusesValid(sigs) ==> r.approved + r.pending + r.rejected == r.total)
      && r.message == SummaryMessage(r.allApproved, r.pendingOffices, r.rejectedOffices)
  {
    var mine := SignatoriesOf(sigs, rid);
    var total := |mine|;
    var approved := CountStatus(mine, Approved);
    var rejected := CountStatus(mine, Rejected);
    var pending := CountStatus(mine, Pending);
    var allApproved := approved == total && rejected == 0;
    var pendingOffices := Sort(OfficeNames(WithStatus(mine, Pending)));
    var rejectedOffices := Sort(OfficeNames(WithStatus(mine, Rejected)));
    SortedOfficeCount(mine, Pending);
    SortedOfficeCount(mine, Rejected);
    AllApprovedCount(sigs, rid);
    assert SignatoryStatusesValid(sigs) ==> approved + pending + rejected == total by {
      if SignatoryStatusesValid(sigs) {
        SignatoriesOfValid(sigs, rid);
        CountStatusesPartition(mine);
      }
    }
    Summary(allApproved, total, approved, pending, rejected, pendingOffices, rejectedOffices,
            SummaryMessage(allApproved, pendingOffices, rejectedOffices))
  }

  /** `check_all_clearances_approved`: a missing id and a request without
      signatories are refused, otherwise the request's tally. */
  function ApprovalSummary(sigs: seq<Signatory>, rid: nat): (r: ApprovalCheck)
    ensures r == MissingRequestId <==> rid == 0
    ensures r == NoSignatoriesFound <==> rid != 0 && forall s :: s in sigs ==> s.requestId != rid
    ensures r.Summary? <==> rid != 0 && SignatoriesOf(sigs, rid) != []
    ensures r.Summary? ==> r == Tally(sigs, rid)
  {
    if rid == 0 then MissingRequestId
    else if SignatoriesOf(sigs, rid) == [] then NoSignatoriesFound
    else Tally(sigs, rid)
  }

  // ---------------------------------------------------------------------
  // Lookups

  /** The position of the first row with id `id`. */
  function FindClearance(cs: seq<Clearance>, id: nat): (r: Option<nat>)
    ensures r.Some? ==> r.value < |cs| && cs[r.value].id == id
    ensures r.Some? ==> forall i :: 0 <= i < r.value ==> cs[i].id != id
    ensures r.None? <==> forall i :: 0 <= i < |cs| ==> cs[i].id != id
  {
    if cs == [] then None
    else if cs[0].id == id then Some(0)
    else match FindClearance(cs[1..], id)
      case None => None
      case Some(k) => Some(k + 1)
  }

  /** The position of the first signatory with id `id`. */
  function FindSignatory(sigs: seq<Signatory>, id: nat): (r: Option<nat>)
    ensures r.Some? ==> r.value < |sigs| && sigs[r.value].id == id
    ensures r.None? <==> forall i :: 0 <= i < |sigs| ==> sigs[i].id != id
  {
    if sigs == [] then None
    else if sigs[0].id == id then Some(0)
    else match FindSignatory(sigs[1..], id)
      case None => None
      case Some(k) => Some(k + 1)
  }

  /** The position of the first document request with id `id`. */
  function FindDocument(ds: seq<DocumentRequest>, id: nat): (r: Option<nat>)
    ensures r.Some? ==> r.value < |ds| && ds[r.value].id == id
    ensures r.None? <==> forall i :: 0 <= i < |ds| ==> ds[i].id != id
  {
    if ds == [] then None
    else if ds[0].id == id then Some(0)
    else match FindDocument(ds[1..], id)
      case None => None
      case Some(k) => Some(k + 1)
  }

  /** The position of the first student with the given e-mail address. */
  function FindStudent(students: seq<Student>, email: string): (r: Option<nat>)
    ensures r.Some? ==> r.value < |students| && students[r.value].email == email
    ensures r.None? <==> forall i :: 0 <= i < |students| ==> students[i].email != email
  {
    if students == [] then None
    else if students[0].email == email then Some(0)
    else match FindStudent(students[1..], email)
      case None => None
      case Some(k) => Some(k + 1)
  }

  /** `ORDER BY id DESC LIMIT 1` over the signatories satisfying `P`: the
      position of one with the largest id. */
  function LatestWhere(sigs: seq<Signatory>, P: Signatory -> bool): (r: Option<nat>)
    ensures r.Some? ==> r.value < |sigs| && P(sigs[r.value])
    ensures r.Some? ==> forall i :: 0 <= i < |sigs| && P(sigs[i]) ==> sigs[i].id <= sigs[r.value].id
    ensures r.None? <==> forall i :: 0 <= i < |sigs| ==> !P(sigs[i])
  {
    if sigs == [] then None
    else
      var n := |sigs| - 1;
      assert forall i :: 0 <= i < n ==> sigs[..n][i] == sigs[i];
      match LatestWhere(sigs[..n], P)
      case None => if P(sigs[n]) then Some(n) else None
      case Some(k) => if P(sigs[n]) && sigs[n].id > sigs[k].id then Some(n) else Some(k)
  }

  /** The registrar's signatory of request `rid`, the latest if several. */
  function RegistrarOf(sigs: seq<Signatory>, rid: nat): (r: Option<nat>)
    ensures r.Some? ==> r.value < |sigs| && sigs[r.value].requestId == rid && sigs[r.value].office == RegistrarOffice
    ensures r.Some? ==> forall i :: 0 <= i < |sigs| && sigs[i].requestId == rid && sigs[i].office == RegistrarOffice
                                    ==> sigs[i].id <= sigs[r.value].id
    ensures r.None? <==> forall i :: 0 <= i < |sigs| ==> !(sigs[i].requestId == rid && sigs[i].office == RegistrarOffice)
  {
    LatestWhere(sigs, (s: Signatory) => s.requestId == rid && s.office == RegistrarOffice)
  }

  /** Request `rid` belongs to `studentId` (the join on clearance_requests). */
  predicate OwnedBy(cs: seq<Clearance>, rid: nat, studentId: nat) {
    exists i :: 0 <= i < |cs| && cs[i].id == rid && cs[i].studentId == studentId
  }

  /** The latest registrar signatory over all of a student's requests. */
  function StudentRegistrar(sigs: seq<Signatory>, cs: seq<Clearance>, studentId: nat): (r: Option<nat>)
    ensures r.Some? ==> r.value < |sigs| && sigs[r.value].office == RegistrarOffice
                        && OwnedBy(cs, sigs[r.value].requestId, studentId)
    ensures r.Some? ==> forall i :: 0 <= i < |sigs| && sigs[i].office == RegistrarOffice && OwnedBy(cs, sigs[i].requestId, studentId)
                                    ==> sigs[i].id <= sigs[r.value].id
    ensures r.None? <==> forall i :: 0 <= i < |sigs| ==> !(sigs[i].office == RegistrarOffice && OwnedBy(cs, sigs[i].requestId, studentId))
  {
    LatestWhere(sigs, (s: Signatory) => s.office == RegistrarOffice && OwnedBy(cs, s.requestId, studentId))
  }

  /** The clearance a document request is linked to, if the document exists
      and is linked. */
  function LinkedClearance(ds: seq<DocumentRequest>, did: nat): Option<nat> {
    match FindDocument(ds, did)
    case None => None
    case Some(k) => ds[k].clearanceId
  }

  // ---------------------------------------------------------------------
  // Row updates (`UPDATE ... WHERE id = ...`)

  function SetRequestStatus(cs: seq<Clearance>, id: nat, st: Status, ful: Status, reg: RegistrarStatus): seq<Clearance> {
    seq(|cs|, i requires 0 <= i < |cs| =>
      if cs[i].id == id then cs[i].(status := st, fulfillment := ful, registrar := reg) else cs[i])
  }

  /** The joined updates of the document endpoints, which leave `status`. */
  function SetFulfillment(cs: seq<Clearance>, id: Option<nat>, ful: Status, reg: RegistrarStatus): seq<Clearance> {
    seq(|cs|, i requires 0 <= i < |cs| =>
      if Some(cs[i].id) == id then cs[i].(fulfillment := ful, registrar := reg) else cs[i])
  }

  function SetDocumentStatus(ds: seq<DocumentRequest>, id: nat, st: Status): seq<DocumentRequest> {
    seq(|ds|, i requires 0 <= i < |ds| => if ds[i].id == id then ds[i].(status := st) else ds[i])
  }

  function MarkSubmitted(students: seq<Student>, id: nat): seq<Student> {
    seq(|students|, i requires 0 <= i < |students| =>
      if students[i].id == id then students[i].(hasClearanceRequest := true, status := Pending) else students[i])
  }

  function SetSignature(students: seq<Student>, id: nat, signature: string): seq<Student> {
    seq(|students|, i requires 0 <= i < |students| =>
      if students[i].id == id then students[i].(signature := Some(signature)) else students[i])
  }

  function SetStudentStatus(students: seq<Student>, id: nat, st: Status): seq<Student> {
    seq(|students|, i requires 0 <= i < |students| =>
      if students[i].id == id then students[i].(status := st) else students[i])
  }

  function SetStudentRejected(students: seq<Student>, id: nat, reason: string, approver: string): seq<Student> {
    seq(|students|, i requires 0 <= i < |students| =>
      if students[i].id == id
      then students[i].(status := Rejected, rejectionReason := Some(reason), approvedBy := Some(approver))
      else students[i])
  }

  // ---------------------------------------------------------------------
  // _check_duplicate_request

  /** Thirty days, in the seconds the timestamps count. */
  const DuplicateWindow: int := 30 * 24 * 60 * 60

  /** The filter of the duplicate query. */
  predicate IsCandidate(c: Clearance, studentId: nat, documentType: string, now: int) {
    c.studentId == studentId && c.documentType == documentType
    && (c.status == Pending || c.status == Approved)
    && c.createdAt >= now - DuplicateWindow
  }

  /** The positions of the rows the filter keeps, newest first. Rows are
      inserted in the order of their creation time, so the reverse of the
      table order is an order by `created_at DESC`. */
  function NewestPositions(cs: seq<Clearance>, studentId: nat, documentType: string, now: int): (r: seq<nat>)
    ensures forall k :: 0 <= k < |r| ==> r[k] < |cs| && IsCandidate(cs[r[k]], studentId, documentType, now)
    ensures forall k, l :: 0 <= k < l < |r| ==> r[l] < r[k]
    ensures forall i :: 0 <= i < |cs| && IsCandidate(cs[i], studentId, documentType, now) ==> i in r
  {
    if cs == [] then []
    else
      var n := |cs| - 1;
      var rest := NewestPositions(cs[..n], studentId, documentType, now);
      assert forall k :: 0 <= k < |rest| ==> cs[rest[k]] == cs[..n][rest[k]];
      (if IsCandidate(cs[n], studentId, documentType, now) then [n] else []) + rest
  }

  /** The rows the filter keeps, newest first. */
  function NewestCandidates(cs: seq<Clearance>, studentId: nat, documentType: string, now: int): (r: seq<Clearance>)
    ensures var ps := NewestPositions(cs, studentId, documentType, now);
      |r| == |ps| && forall k :: 0 <= k < |r| ==> r[k] == cs[ps[k]]
    ensures forall c :: c in r <==> c in cs && IsCandidate(c, studentId, documentType, now)
  {
    var ps := NewestPositions(cs, studentId, documentType, now);
    var r := seq(|ps|, k requires 0 <= k < |ps| => cs[ps[k]]);
    PositionsCover(cs, ps, r, studentId, documentType, now);
    r
  }

  /** Rows picked at the positions of all the candidates are the candidates. */
  lemma PositionsCover(cs: seq<Clearance>, ps: seq<nat>, r: seq<Clearance>, studentId: nat, documentType: string, now: int)
    requires forall k :: 0 <= k < |ps| ==> ps[k] < |cs| && IsCandidate(cs[ps[k]], studentId, documentType, now)
    requires forall i :: 0 <= i < |cs| && IsCandidate(cs[i], studentId, documentType, now) ==> i in ps
    requires |r| == |ps| && forall k :: 0 <= k < |r| ==> r[k] == cs[ps[k]]
    ensures forall c :: c in r <==> c in cs && IsCandidate(c, studentId, documentType, now)
  {
    forall c | c in cs && IsCandidate(c, studentId, documentType, now) ensures c in r {
      var i :| 0 <= i < |cs| && cs[i] == c;
      var k :| 0 <= k < |ps| && ps[k] == i;
      assert r[k] == c;
    }
  }

  /** `LIMIT 5`: the five newest candidates, all of them when there are
      fewer; every candidate left out is older than every one kept. */
  function Candidates(cs: seq<Clearance>, studentId: nat, documentType: string, now: int): (r: seq<Clearance>)
    ensures var ps := NewestPositions(cs, studentId, documentType, now);
      |r| == Min(|ps|, 5) && forall k :: 0 <= k < |r| ==> r[k] == cs[ps[k]]
    ensures |r| <= 5
    ensures forall c :: c in r ==> c in cs && IsCandidate(c, studentId, documentType, now)
    ensures |r| < 5 ==> forall c :: c in cs && IsCandidate(c, studentId, documentType, now) ==> c in r
    ensures var ps := NewestPositions(cs, studentId, documentType, now);
      forall i, k :: (0 <= i < |cs| && IsCandidate(cs[i], studentId, documentType, now)
                      && i !in ps[..|r|] && 0 <= k < |r|) ==> i < ps[k]
  {
    var all := NewestCandidates(cs, studentId, documentType, now);
    var r := all[..Min(|all|, 5)];
    OmittedAreOlder(cs, studentId, documentType, now, |r|);
    r
  }

  /** A candidate outside the first `m` positions is older than each of them. */
  lemma OmittedAreOlder(cs: seq<Clearance>, studentId: nat, documentType: string, now: int, m: nat)
    requires m <= |NewestPositions(cs, studentId, documentType, now)|
    ensures var ps := NewestPositions(cs, studentId, documentType, now);
      forall i, k :: (0 <= i < |cs| && IsCandidate(cs[i], studentId, documentType, now)
                      && i !in ps[..m] && 0 <= k < m) ==> i < ps[k]
  {
    var ps := NewestPositions(cs, studentId, documentType, now);
    forall i, k | 0 <= i < |cs| && IsCandidate(cs[i], studentId, documentType, now)
                  && i !in ps[..m] && 0 <= k < m
      ensures i < ps[k]
    {
      var j :| 0 <= j < |ps| && ps[j] == i;
    }
  }

  /** A row asks for the same documents and purposes: the sorted lists are
      equal, that is, each list is a rearrangement of the other. A NULL
      column reads as the empty list. */
  function SameItems(c: Clearance, documents: seq<string>, purposes: seq<string>): (r: bool)
    ensures r <==> multiset(c.documents.GetOr([])) == multiset(documents)
                   && multiset(c.purposes.GetOr([])) == multiset(purposes)
  {
    SortEqualIff(c.documents.GetOr([]), documents);
    SortEqualIff(c.purposes.GetOr([]), purposes);
    Sort(c.documents.GetOr([])) == Sort(documents) && Sort(c.purposes.GetOr([])) == Sort(purposes)
  }

  // ---------------------------------------------------------------------
  // _auto_transfer_to_pending_documents

  /** The document request and the log row one transfer inserts. */
  datatype Transfer = Transfer(document: DocumentRequest, log: TransferLog)

  predicate HasLinkedDocument(ds: seq<DocumentRequest>, studentId: nat, rid: nat) {
    exists i :: 0 <= i < |ds| && ds[i].studentId == studentId && ds[i].clearanceId == Some(rid)
  }

  /** `json.dumps` of a list of strings, without the escaping of quotes,
      backslashes and non-ASCII characters. */
  function JsonList(xs: seq<string>): (r: string)
    ensures r != [] && r[0] == '['
  {
    "[" + Join(seq(|xs|, i requires 0 <= i < |xs| => "\"" + xs[i] + "\""), ", ") + "]"
  }

  /** The document type copied from the documents column: its JSON text,
      or the default when the column is NULL. */
  function TransferDocumentType(documents: Option<seq<string>>): string {
    match documents
    case None => TransferDocumentsDefault
    case Some(xs) => JsonList(xs)
  }

  function TransferPurpose(purpose: Option<string>): string {
    if purpose.None? || purpose.value == [] then TransferPurposeDefault else purpose.value
  }

  /** What one transfer of request `rid` inserts, if anything. The query
      names the `purpose` column; on a schema without it the query raises and
      the exception is swallowed. A missing request and a request that
      already has its document request insert nothing. */
  function TransferRows(hasPurposeColumn: bool, cs: seq<Clearance>, ds: seq<DocumentRequest>, rid: nat, docId: nat): (r: Option<Transfer>)
    ensures !hasPurposeColumn ==> r.None?
    ensures r.Some? ==>
      var d := r.value.document;
      d.id == docId && d.status == Pending && d.clearanceId == Some(rid)
      && OwnedBy(cs, rid, d.studentId)
      && !HasLinkedDocument(ds, d.studentId, rid)
      && r.value.log == TransferLog(rid, docId, d.studentId, TransferReason)
    ensures r.None? && hasPurposeColumn && FindClearance(cs, rid).Some? ==>
      HasLinkedDocument(ds, cs[FindClearance(cs, rid).value].studentId, rid)
  {
    if !hasPurposeColumn then None
    else match FindClearance(cs, rid)
      case None => None
      case Some(k) =>
        var c := cs[k];
        if HasLinkedDocument(ds, c.studentId, rid) then None
        else
          var d := DocumentRequest(docId, c.studentId, TransferDocumentType(c.documents),
                                   TransferPurpose(c.purpose), Pending, Some(rid), c.pickupDate);
          Some(Transfer(d, TransferLog(rid, docId, c.studentId, TransferReason)))
  }

  /** A request whose documents and purpose are NULL is transferred with the
      default document type and purpose. */
  lemma TransferDefaults(cs: seq<Clearance>, ds: seq<DocumentRequest>, rid: nat, docId: nat)
    requires TransferRows(true, cs, ds, rid, docId).Some?
    requires forall i :: 0 <= i < |cs| && cs[i].id == rid ==> cs[i].documents.None? && cs[i].purpose.None?
    ensures TransferRows(true, cs, ds, rid, docId).value.document.documentType == "Clearance Documents"
    ensures TransferRows(true, cs, ds, rid, docId).value.document.purpose == "Clearance Processing"
  {
  }

  /** A second transfer of the same request inserts nothing. */
  lemma TransferIdempotent(hasPurposeColumn: bool, cs: seq<Clearance>, ds: seq<DocumentRequest>, rid: nat, docId: nat, laterId: nat)
    requires TransferRows(hasPurposeColumn, cs, ds, rid, docId).Some?
    ensures TransferRows(hasPurposeColumn, cs, ds + [TransferRows(hasPurposeColumn, cs, ds, rid, docId).value.document], rid, laterId).None?
  {
    var d := TransferRows(hasPurposeColumn, cs, ds, rid, docId).value.document;
    var ds' := ds + [d];
    assert ds'[|ds|] == d;
    assert HasLinkedDocument(ds', d.studentId, rid);
  }

  // ---------------------------------------------------------------------
  // api_fix_missing_transfers

  /** The filter of the sweep: approved, fulfillment still pending, and no
      document request linked to it. */
  predicate NeedsTransfer(c: Clearance, ds: seq<DocumentRequest>) {
    c.status == Approved && c.fulfillment == Pending
    && forall i :: 0 <= i < |ds| ==> ds[i].clearanceId != Some(c.id)
  }

  /** The rows the sweep finds, oldest first. */
  function MissingTransfers(cs: seq<Clearance>, ds: seq<DocumentRequest>): (r: seq<Clearance>)
    ensures |r| <= |cs|
    ensures forall i :: 0 <= i < |r| ==> r[i] in cs && NeedsTransfer(r[i], ds)
    ensures forall i :: 0 <= i < |cs| && NeedsTransfer(cs[i], ds) ==> cs[i] in r
  {
    if cs == [] then []
    else (if NeedsTransfer(cs[0], ds) then [cs[0]] else []) + MissingTransfers(cs[1..], ds)
  }

  /** The signing-off that `_update_request_status_after_sign` performs sets
      fulfillment 'Approved', so a request it signed off is never one the
      sweep finds. */
  lemma SignOffLeavesSweep(cs: seq<Clearance>, ds: seq<DocumentRequest>, rid: nat)
    ensures forall c :: c in MissingTransfers(SetRequestStatus(cs, rid, Approved, Approved, RegistrarPending), ds) ==> c.id != rid
  {
    var cs' := SetRequestStatus(cs, rid, Approved, Approved, RegistrarPending);
    forall c | c in MissingTransfers(cs', ds) ensures c.id != rid {
      var i :| 0 <= i < |cs'| && cs'[i] == c;
    }
  }

  /** The signatory approval sets fulfillment 'Pending' instead, so a
      request it completes without a document request is one the sweep finds. */
  lemma ApprovalJoinsSweep(cs: seq<Clearance>, ds: seq<DocumentRequest>, rid: nat)
    requires exists k :: 0 <= k < |cs| && cs[k].id == rid
    requires forall d :: d in ds ==> d.clearanceId != Some(rid)
    ensures exists c :: c in MissingTransfers(SetRequestStatus(cs, rid, Approved, Pending, RegistrarPending), ds) && c.id == rid
  {
    var cs' := SetRequestStatus(cs, rid, Approved, Pending, RegistrarPending);
    var k :| 0 <= k < |cs| && cs[k].id == rid;
    var c := cs'[k];
    assert c.id == rid && NeedsTransfer(c, ds);
    assert c in MissingTransfers(cs', ds);
  }
}
