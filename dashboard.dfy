/** The status a student sees for each of their requests, and the counters
    above the request list (`getEffectiveStatus` and `updateRequestCounts`
    in app/static/assets/js/student-dashboard.js). */
module Dashboard {
  import opened Wrappers
  import opened Text

  /** A request as the dashboard receives it. Missing, null or empty fields
      are None; `signatories` is None when it is not an array. */
  datatype ClientRequest = ClientRequest(
    status: Option<string>,
    requestType: Option<string>,
    signatories: Option<seq<Option<string>>>)

  datatype Effective = Pending | Processing | Completed | Released | Rejected

  /** `(x || '').toString().trim().toLowerCase()` */
  function NormalizedStatus(status: Option<string>): string {
    Lower(Strip(status.GetOr("")))
  }

  /** A signatory's status is lower-cased but not trimmed. */
  function SignatoryStatus(status: Option<string>): string {
    Lower(status.GetOr(""))
  }

  function RequestType(req: ClientRequest): string {
    if req.requestType.None? || req.requestType.value == [] then "clearance" else req.requestType.value
  }

  function Signatories(req: ClientRequest): seq<Option<string>> {
    req.signatories.GetOr([])
  }

  predicate AnyRejected(sigs: seq<Option<string>>) {
    exists i :: 0 <= i < |sigs| && SignatoryStatus(sigs[i]) == "rejected"
  }

  predicate AllApproved(sigs: seq<Option<string>>) {
    |sigs| > 0 && forall i :: 0 <= i < |sigs| ==> SignatoryStatus(sigs[i]) == "approved"
  }

  /** The raw statuses a stage keeps as they are: the registrar's stages and
      the rejection. */
  function KnownStage(raw: string): Option<Effective> {
    if raw == "processing" then Some(Processing)
    else if raw == "rejected" then Some(Rejected)
    else if raw == "completed" then Some(Completed)
    else if raw == "released" then Some(Released)
    else None
  }

  /** Neither a consolidated nor a document request: a clearance, the default. */
  predicate IsClearance(req: ClientRequest) {
    RequestType(req) != "consolidated" && RequestType(req) != "document"
  }

  /** `getEffectiveStatus`. */
  function EffectiveStatus(req: ClientRequest): (r: Effective)
    // consolidated requests: completed is shown as released, a completed stage never shows
    ensures RequestType(req) == "consolidated" ==>
      var raw := NormalizedStatus(req.status);
      r == (if raw == "completed" then Released
            else if raw == "processing" then Processing
            else if raw == "rejected" then Rejected
            else Pending)
    // document requests: unclaimed is shown as released
    ensures RequestType(req) == "document" ==>
      var raw := NormalizedStatus(req.status);
      r == (if raw == "unclaimed" then Released else KnownStage(raw).GetOr(Pending))
    // clearances: one rejection decides, whatever the raw status
    ensures IsClearance(req) && AnyRejected(Signatories(req)) ==> r == Rejected
    // clearances: nothing but pending until every office approved
    ensures (IsClearance(req) && Signatories(req) != [] && !AnyRejected(Signatories(req))
             && !AllApproved(Signatories(req))) ==> r == Pending
    // clearances without signatories, and approved ones: the registrar's stage
    ensures IsClearance(req) && (Signatories(req) == [] || AllApproved(Signatories(req)))
            ==> r == KnownStage(NormalizedStatus(req.status)).GetOr(Pending)
  {
    var raw := NormalizedStatus(req.status);
    var sigs := Signatories(req);
    var requestType := RequestType(req);
    if requestType == "consolidated" then
      if raw == "completed" then Released
      else if raw == "processing" then Processing
      else if raw == "rejected" then Rejected
      else Pending
    else if requestType == "document" then
      if raw == "completed" then Completed
      else if raw == "released" then Released
      else if raw == "processing" then Processing
      else if raw == "rejected" then Rejected
      else if raw == "unclaimed" then Released
      else Pending
    else if |sigs| == 0 then
      if raw == "completed" then Completed
      else if raw == "released" then Released
      else if raw == "processing" then Processing
      else if raw == "rejected" then Rejected
      else Pending
    else
      var hasAnyRejected := HasRejected(sigs);
      var allApproved := |sigs| > 0 && EveryApproved(sigs);
      if hasAnyRejected then Rejected
      else if !allApproved then Pending
      else if raw == "processing" then Processing
      else if raw == "rejected" then Rejected
      else if raw == "completed" then Completed
      else if raw == "released" then Released
      else Pending
  }

  /** `signatories.some(s => status(s) === 'rejected')` */
  function HasRejected(sigs: seq<Option<string>>): (r: bool)
    ensures r <==> AnyRejected(sigs)
  {
    if sigs == [] then false
    else
      assert forall i :: 1 <= i < |sigs| ==> sigs[i] == sigs[1..][i - 1];
      SignatoryStatus(sigs[0]) == "rejected" || HasRejected(sigs[1..])
  }

  /** `signatories.every(s => status(s) === 'approved')` */
  function EveryApproved(sigs: seq<Option<string>>): (r: bool)
    ensures r <==> forall i :: 0 <= i < |sigs| ==> SignatoryStatus(sigs[i]) == "approved"
  {
    if sigs == [] then true
    else
      assert forall i :: 1 <= i < |sigs| ==> sigs[i] == sigs[1..][i - 1];
      SignatoryStatus(sigs[0]) == "approved" && EveryApproved(sigs[1..])
  }

  /** Capitals in the request status make no difference. */
  lemma NormalizedIgnoresCase(s: string, t: string)
    requires Lower(s) == Lower(t)
    ensures NormalizedStatus(Some(s)) == NormalizedStatus(Some(t))
  {
    StripLower(s);
    StripLower(t);
  }

  /** White space around the request status makes no difference. */
  lemma NormalizedIgnoresPadding(s: string)
    ensures NormalizedStatus(Some(" " + s + " ")) == NormalizedStatus(Some(s))
  {
    StripPadded(s);
  }

  // ---------------------------------------------------------------------
  // updateRequestCounts

  datatype Counts = Counts(pending: nat, processing: nat, completed: nat)

  /** The number of requests whose effective status is `e`. */
  function CountOf(reqs: seq<ClientRequest>, e: Effective): nat {
    if reqs == [] then 0
    else CountOf(reqs[..|reqs| - 1], e) + (if EffectiveStatus(reqs[|reqs| - 1]) == e then 1 else 0)
  }

  lemma CountOfSnoc(reqs: seq<ClientRequest>, i: nat, e: Effective)
    requires i < |reqs|
    ensures CountOf(reqs[..i + 1], e) == CountOf(reqs[..i], e) + (if EffectiveStatus(reqs[i]) == e then 1 else 0)
  {
    assert reqs[..i + 1][..i] == reqs[..i];
  }

  /** The loop over the requests: pending and processing in their own
      boxes, released in the completed box. */
  method UpdateRequestCounts(reqs: seq<ClientRequest>) returns (counts: Counts)
    ensures counts == Counts(CountOf(reqs, Pending), CountOf(reqs, Processing), CountOf(reqs, Released))
  {
    var pending, processing, completed := 0, 0, 0;
    var i := 0;
    while i < |reqs|
      invariant 0 <= i <= |reqs|
      invariant pending == CountOf(reqs[..i], Pending)
      invariant processing == CountOf(reqs[..i], Processing)
      invariant completed == CountOf(reqs[..i], Released)
    {
      CountOfSnoc(reqs, i, Pending);
      CountOfSnoc(reqs, i, Processing);
      CountOfSnoc(reqs, i, Released);
      var effectiveStatus := EffectiveStatus(reqs[i]);
      if effectiveStatus == Pending {
        pending := pending + 1;
      } else if effectiveStatus == Processing {
        processing := processing + 1;
      } else if effectiveStatus == Released {
        completed := completed + 1;
      }
      i := i + 1;
    }
    assert reqs[..|reqs|] == reqs;
    counts := Counts(pending, processing, completed);
  }

  /** Every request has exactly one effective status, and the requests whose
      status is completed or rejected are the ones no box counts. */
  lemma {:induction false} CountsPartition(reqs: seq<ClientRequest>)
    ensures CountOf(reqs, Pending) + CountOf(reqs, Processing) + CountOf(reqs, Released)
          + CountOf(reqs, Completed) + CountOf(reqs, Rejected) == |reqs|
  {
    if reqs != [] {
      CountsPartition(reqs[..|reqs| - 1]);
    }
  }
}
