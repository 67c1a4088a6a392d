/**
  The second-revision claim service (Services/ClaimService.cs). It works on its own claim
  shape, keyed by `ClaimId`, with a string lecturer id, a processing stamp and a fourth
  status, Paid. Submission checks the hours and the rate, optionally stores one document,
  and appends the claim; approval, rejection and the generic status update rewrite one
  stored claim in place; the queries are filters and orderings over the store.
*/
module ClaimServiceRev2 {
  import opened Wrappers
  import opened Seqs
  import opened Lookup
  import opened Text
  import ClaimModel
  import Files

  type Instant = ClaimModel.Instant

  datatype ClaimStatus = Pending | Approved | Rejected | Paid

  datatype Claim = Claim(
    claimId: int,
    lecturerId: string,
    hoursWorked: real,
    hourlyRate: real,
    status: ClaimStatus,
    submittedDate: Instant,
    processedBy: Option<string>,
    processedDate: Option<Instant>,
    rejectionReason: Option<string>,
    documentPath: Option<string>,
    documentName: Option<string>)

  /** The service's reply: success, or failure with a message; an upload also carries the stored path. */
  datatype ServiceResult = ServiceResult(success: bool, errorMessage: string, filePath: string)

  function Ok(): ServiceResult {
    ServiceResult(true, "", "")
  }

  function Fail(message: string): ServiceResult {
    ServiceResult(false, message, "")
  }

  function OkWithFile(filePath: string): ServiceResult {
    ServiceResult(true, "", filePath)
  }

  const MaxHours: real := 176.0
  const MinRate: real := 100.0
  const MaxRate: real := 1000.0
  const MaxDocumentSize: nat := 5 * 1024 * 1024
  const AllowedExtensions: seq<string> := [".pdf", ".docx", ".xlsx", ".jpg", ".png"]

  const HoursMessage := "Maximum 176 hours per month allowed"
  const RateMessage := "Hourly rate must be between R100 and R1000"
  const NotFoundMessage := "Claim not found"
  const DocumentSizeMessage := "File size must be less than 5MB"
  const DocumentTypeMessage := "Only PDF, DOCX, XLSX, JPG, and PNG files are allowed"

  // ---------------------------------------------------------------------------
  // Document upload

  /** The name a document is stored under: the claim id, the upload timestamp and the lower-cased extension. */
  function StoredDocumentName(claimId: int, stamp: string, file: Files.FormFile): string {
    IntToString(claimId) + "_" + stamp + Files.FileExtension(file)
  }

  /**
    The accept/reject decision of `UploadDocumentAsync`: the size limit first, then the
    extension list; an accepted document is reported under the public uploads path.
    `stamp` stands for the UTC upload time rendered as yyyyMMddHHmmss.
  */
  function UploadDocument(file: Files.FormFile, claimId: int, stamp: string): (r: ServiceResult)
    ensures r.success <==> file.length <= MaxDocumentSize && Files.FileExtension(file) in AllowedExtensions
    ensures file.length > MaxDocumentSize ==> r == Fail(DocumentSizeMessage)
    ensures file.length <= MaxDocumentSize && Files.FileExtension(file) !in AllowedExtensions ==> r == Fail(DocumentTypeMessage)
    ensures r.success ==> r.errorMessage == "" && r.filePath == Files.GetFilePreviewUrl(StoredDocumentName(claimId, stamp, file))
  {
    if file.length > MaxDocumentSize then Fail(DocumentSizeMessage)
    else
      var extension := Files.FileExtension(file);
      if extension == "" || extension !in AllowedExtensions then Fail(DocumentTypeMessage)
      else OkWithFile("/uploads/" + StoredDocumentName(claimId, stamp, file))
  }

  /** The public path of a stored document ends in the document's lower-cased extension. */
  lemma StoredNameExtension(file: Files.FormFile, claimId: int, stamp: string)
    requires GetExtension(file.fileName) != []
    ensures GetExtension(Files.GetFilePreviewUrl(StoredDocumentName(claimId, stamp, file))) == Files.FileExtension(file)
  {
    var ext := Files.FileExtension(file);
    var stem := IntToString(claimId) + "_" + stamp;
    var prefix := "/uploads/" + stem;
    assert StoredDocumentName(claimId, stamp, file) == stem + ext;
    AppendAssociates("/uploads/", stem, ext);
    LowerExtensionOfSuffix(prefix, file.fileName);
  }

  /** The stored path of an accepted document ends in the document's own lower-cased extension. */
  lemma StoredPathKeepsExtension(file: Files.FormFile, claimId: int, stamp: string)
    requires UploadDocument(file, claimId, stamp).success
    ensures GetExtension(UploadDocument(file, claimId, stamp).filePath) == Files.FileExtension(file)
  {
    assert Files.FileExtension(file) != "";
    StoredNameExtension(file, claimId, stamp);
  }

  /** Every document the file service accepts, this service accepts too. */
  lemma FileServiceAcceptanceSuffices(file: Files.FormFile, claimId: int, stamp: string)
    requires Files.ValidateFile(Some(file)).success
    ensures UploadDocument(file, claimId, stamp).success
  {
    Files.AcceptedTypeIsSupported(file);
  }

  /** Images are accepted here, while the file service refuses them. */
  lemma ImagesAcceptedOnlyHere(stem: string, length: nat, claimId: int, stamp: string)
    requires 0 < length <= MaxDocumentSize
    ensures UploadDocument(Files.FormFile(stem + ".jpg", length), claimId, stamp).success
    ensures !Files.ValidateFile(Some(Files.FormFile(stem + ".jpg", length))).success
  {
    ExtensionOfSuffix(stem, ".jpg");
    assert ToLowerInvariant(".jpg") == ".jpg";
    assert Files.FileExtension(Files.FormFile(stem + ".jpg", length)) == ".jpg";
  }

  // ---------------------------------------------------------------------------
  // Submission

  /** A document was supplied and is not empty, so an upload is attempted. */
  predicate HasDocument(document: Option<Files.FormFile>) {
    document.Some? && document.value.length > 0
  }

  /** The reply of `SubmitClaimAsync`: the hours, then the rate, then the upload decide it. */
  function SubmissionResult(claim: Claim, document: Option<Files.FormFile>, stamp: string): (r: ServiceResult)
    ensures r.success <==>
      && claim.hoursWorked <= MaxHours
      && MinRate <= claim.hourlyRate <= MaxRate
      && (HasDocument(document) ==> UploadDocument(document.value, claim.claimId, stamp).success)
    ensures r.success ==> r == Ok()
    ensures claim.hoursWorked > MaxHours ==> r == Fail(HoursMessage)
    ensures claim.hoursWorked <= MaxHours && !(MinRate <= claim.hourlyRate <= MaxRate) ==> r == Fail(RateMessage)
    ensures (claim.hoursWorked <= MaxHours && MinRate <= claim.hourlyRate <= MaxRate && HasDocument(document)
             && !UploadDocument(document.value, claim.claimId, stamp).success)
            ==> r == Fail(UploadDocument(document.value, claim.claimId, stamp).errorMessage)
  {
    if claim.hoursWorked > MaxHours then Fail(HoursMessage)
    else if claim.hourlyRate < MinRate || claim.hourlyRate > MaxRate then Fail(RateMessage)
    else if HasDocument(document) && !UploadDocument(document.value, claim.claimId, stamp).success then
      Fail(UploadDocument(document.value, claim.claimId, stamp).errorMessage)
    else Ok()
  }

  /** The claim as a successful submission stores it. */
  function Submitted(claim: Claim, document: Option<Files.FormFile>, stamp: string, now: Instant): (stored: Claim)
    ensures stored.status == Pending && stored.submittedDate == now
    ensures stored.claimId == claim.claimId && stored.lecturerId == claim.lecturerId
    ensures stored.hoursWorked == claim.hoursWorked && stored.hourlyRate == claim.hourlyRate
    ensures HasDocument(document) ==>
      && stored.documentPath == Some(UploadDocument(document.value, claim.claimId, stamp).filePath)
      && stored.documentName == Some(document.value.fileName)
    ensures !HasDocument(document) ==> stored.documentPath == claim.documentPath && stored.documentName == claim.documentName
  {
    var withDocument :=
      if HasDocument(document) then
        claim.(documentPath := Some(UploadDocument(document.value, claim.claimId, stamp).filePath),
               documentName := Some(document.value.fileName))
      else claim;
    withDocument.(status := Pending, submittedDate := now)
  }

  // ---------------------------------------------------------------------------
  // Transitions

  /** The position of the claim with key `claimId`, as `FindAsync` locates it. */
  function IndexOf(claims: seq<Claim>, claimId: int): Option<nat> {
    FirstIndex(claims, ClaimIdKey(), claimId)
  }

  function ClaimIdKey(): Claim -> int {
    (c: Claim) => c.claimId
  }

  /** A claim after `UpdateClaimStatusAsync`: any status, with the processing stamp. */
  function WithStatus(claim: Claim, status: ClaimStatus, processedBy: string, now: Instant): (updated: Claim)
    ensures updated.status == status && updated.processedBy == Some(processedBy) && updated.processedDate == Some(now)
    ensures updated.(status := claim.status, processedBy := claim.processedBy, processedDate := claim.processedDate) == claim
  {
    claim.(status := status, processedBy := Some(processedBy), processedDate := Some(now))
  }

  /** A claim after `RejectClaimAsync`: a status update to Rejected that also records the reason. */
  function WithRejection(claim: Claim, rejectedBy: string, reason: string, now: Instant): (updated: Claim)
    ensures updated == WithStatus(claim, Rejected, rejectedBy, now).(rejectionReason := Some(reason))
  {
    claim.(status := Rejected, processedBy := Some(rejectedBy), processedDate := Some(now), rejectionReason := Some(reason))
  }

  /** The store after a transition: the claim with the key rewritten, or no change when there is none. */
  function Rewritten(claims: seq<Claim>, claimId: int, updated: Claim -> Claim): (r: seq<Claim>)
    ensures |r| == |claims|
    ensures forall k :: 0 <= k < |claims| ==> r[k] == if Some(k) == IndexOf(claims, claimId) then updated(claims[k]) else claims[k]
  {
    match IndexOf(claims, claimId)
    case None => claims
    case Some(k) => claims[k := updated(claims[k])]
  }

  function SetStatus(status: ClaimStatus, processedBy: string, now: Instant): Claim -> Claim {
    (c: Claim) => WithStatus(c, status, processedBy, now)
  }

  function SetRejection(rejectedBy: string, reason: string, now: Instant): Claim -> Claim {
    (c: Claim) => WithRejection(c, rejectedBy, reason, now)
  }

  /** The reply of a transition: it fails exactly when the key is unknown. */
  function TransitionResult(claims: seq<Claim>, claimId: int): (r: ServiceResult)
    ensures r.success <==> exists k :: 0 <= k < |claims| && claims[k].claimId == claimId
    ensures !r.success ==> r == Fail(NotFoundMessage)
  {
    if IndexOf(claims, claimId).Some? then Ok() else Fail(NotFoundMessage)
  }

  // ---------------------------------------------------------------------------
  // Queries

  predicate IsPending(c: Claim) {
    c.status == Pending
  }

  function ByLecturer(lecturerId: string): Claim -> bool {
    (c: Claim) => c.lecturerId == lecturerId
  }

  function SubmittedKey(): Claim -> real {
    (c: Claim) => c.submittedDate as real
  }

  /** The number of claims awaiting a decision. */
  function PendingCount(claims: seq<Claim>): nat {
    |Filter(claims, IsPending)|
  }

  /** `GetPendingClaimsAsync`: exactly the Pending claims, oldest submission first. */
  function GetPendingClaims(claims: seq<Claim>): (pending: seq<Claim>)
    ensures forall c :: multiset(pending)[c] == if c.status == Pending then multiset(claims)[c] else 0
    ensures |pending| == PendingCount(claims)
    ensures SortedBy(pending, SubmittedKey(), false)
  {
    var found := Filter(claims, IsPending);
    forall c ensures multiset(found)[c] == if c.status == Pending then multiset(claims)[c] else 0 {
      FilterMultiset(claims, IsPending, c);
    }
    SortBySorted(found, SubmittedKey(), false);
    SortBy(found, SubmittedKey(), false)
  }

  /** `GetClaimsByLecturerAsync`: exactly that lecturer's claims, newest submission first. */
  function GetClaimsByLecturer(claims: seq<Claim>, lecturerId: string): (mine: seq<Claim>)
    ensures forall c :: multiset(mine)[c] == if c.lecturerId == lecturerId then multiset(claims)[c] else 0
    ensures SortedBy(mine, SubmittedKey(), true)
  {
    var found := Filter(claims, ByLecturer(lecturerId));
    forall c ensures multiset(found)[c] == if c.lecturerId == lecturerId then multiset(claims)[c] else 0 {
      FilterMultiset(claims, ByLecturer(lecturerId), c);
    }
    SortBySorted(found, SubmittedKey(), true);
    SortBy(found, SubmittedKey(), true)
  }

  /** `GetAllClaimsAsync`: every claim, newest submission first. */
  function GetAllClaims(claims: seq<Claim>): (all: seq<Claim>)
    ensures multiset(all) == multiset(claims)
    ensures SortedBy(all, SubmittedKey(), true)
  {
    SortBySorted(claims, SubmittedKey(), true);
    SortBy(claims, SubmittedKey(), true)
  }

  /** `GetClaimByIdAsync`: the first claim with that key, or none. */
  function GetClaimById(claims: seq<Claim>, claimId: int): (r: Option<Claim>)
    ensures r.Some? ==> r.value in claims && r.value.claimId == claimId
    ensures r.Some? ==> IndexOf(claims, claimId).Some? && r.value == claims[IndexOf(claims, claimId).value]
    ensures r.Some? ==> forall j :: 0 <= j < IndexOf(claims, claimId).value ==> claims[j].claimId != claimId
    ensures r.None? <==> forall c :: c in claims ==> c.claimId != claimId
  {
    match IndexOf(claims, claimId)
    case None => None
    case Some(k) => Some(claims[k])
  }

  // ---------------------------------------------------------------------------
  // The store

  /** The `Claims` table of the application database, updated in place. */
  class ClaimStore {
    var claims: seq<Claim>

    constructor (claims: seq<Claim>)
      ensures this.claims == claims
    {
      this.claims := claims;
    }

    /** `SubmitClaimAsync`: a claim that passes is appended as Pending, stamped with `now`. */
    method SubmitClaim(claim: Claim, document: Option<Files.FormFile>, stamp: string, now: Instant) returns (result: ServiceResult)
      modifies this
      ensures result == SubmissionResult(claim, document, stamp)
      ensures result.success ==> claims == old(claims) + [Submitted(claim, document, stamp, now)]
      ensures !result.success ==> claims == old(claims)
    {
      if claim.hoursWorked > MaxHours {
        return Fail(HoursMessage);
      }
      if claim.hourlyRate < MinRate || claim.hourlyRate > MaxRate {
        return Fail(RateMessage);
      }
      var stored := claim;
      if HasDocument(document) {
        var upload := UploadDocument(document.value, claim.claimId, stamp);
        if !upload.success {
          return Fail(upload.errorMessage);
        }
        stored := stored.(documentPath := Some(upload.filePath), documentName := Some(document.value.fileName));
      }
      stored := stored.(status := Pending, submittedDate := now);
      claims := claims + [stored];
      return Ok();
    }

    /** `ApproveClaimAsync`: whatever its status, the claim becomes Approved and is stamped. */
    method ApproveClaim(claimId: int, approvedBy: string, now: Instant) returns (result: ServiceResult)
      modifies this
      ensures result == TransitionResult(old(claims), claimId)
      ensures claims == Rewritten(old(claims), claimId, SetStatus(Approved, approvedBy, now))
    {
      var index := IndexOf(claims, claimId);
      if index.None? {
        return Fail(NotFoundMessage);
      }
      var k := index.value;
      claims := claims[k := claims[k].(status := Approved, processedBy := Some(approvedBy), processedDate := Some(now))];
      return Ok();
    }

    /** `RejectClaimAsync`: whatever its status, the claim becomes Rejected, is stamped and keeps the reason. */
    method RejectClaim(claimId: int, rejectedBy: string, reason: string, now: Instant) returns (result: ServiceResult)
      modifies this
      ensures result == TransitionResult(old(claims), claimId)
      ensures claims == Rewritten(old(claims), claimId, SetRejection(rejectedBy, reason, now))
    {
      var index := IndexOf(claims, claimId);
      if index.None? {
        return Fail(NotFoundMessage);
      }
      var k := index.value;
      claims := claims[k := claims[k].(status := Rejected, processedBy := Some(rejectedBy),
                                       processedDate := Some(now), rejectionReason := Some(reason))];
      return Ok();
    }

    /** `UpdateClaimStatusAsync`: any status, Paid included, with the processing stamp. */
    method UpdateClaimStatus(claimId: int, status: ClaimStatus, processedBy: string, now: Instant) returns (result: ServiceResult)
      modifies this
      ensures result == TransitionResult(old(claims), claimId)
      ensures claims == Rewritten(old(claims), claimId, SetStatus(status, processedBy, now))
    {
      var index := IndexOf(claims, claimId);
      if index.None? {
        return Fail(NotFoundMessage);
      }
      var k := index.value;
      claims := claims[k := claims[k].(status := status, processedBy := Some(processedBy), processedDate := Some(now))];
      return Ok();
    }
  }

  // ---------------------------------------------------------------------------
  // Properties across operations

  /** A successful submission adds exactly one claim, and it is pending. */
  lemma SubmissionAddsOnePending(claims: seq<Claim>, claim: Claim, document: Option<Files.FormFile>, stamp: string, now: Instant)
    ensures PendingCount(claims + [Submitted(claim, document, stamp, now)]) == PendingCount(claims) + 1
  {
    var stored := Submitted(claim, document, stamp, now);
    FilterAppend(claims, [stored], IsPending);
    assert Filter([stored], IsPending) == [stored] by {
      assert [stored][..0] == [];
    }
  }

  /** A transition moves at most one claim out of or into the pending set, and only the one with the key. */
  lemma TransitionPendingCount(claims: seq<Claim>, claimId: int, status: ClaimStatus, processedBy: string, now: Instant)
    requires IndexOf(claims, claimId).Some?
    ensures PendingCount(Rewritten(claims, claimId, SetStatus(status, processedBy, now)))
            == PendingCount(claims) - (if IsPending(claims[IndexOf(claims, claimId).value]) then 1 else 0)
                                    + (if status == Pending then 1 else 0)
  {
    var k := IndexOf(claims, claimId).value;
    FilterUpdateCount(claims, k, WithStatus(claims[k], status, processedBy, now), IsPending);
  }

  /** Rejecting a pending claim takes it off the pending list; an unknown key leaves the list as it was. */
  lemma RejectionLeavesPending(claims: seq<Claim>, claimId: int, rejectedBy: string, reason: string, now: Instant)
    ensures IndexOf(claims, claimId).Some? && IsPending(claims[IndexOf(claims, claimId).value]) ==>
      PendingCount(Rewritten(claims, claimId, SetRejection(rejectedBy, reason, now))) == PendingCount(claims) - 1
    ensures IndexOf(claims, claimId).None? ==>
      Rewritten(claims, claimId, SetRejection(rejectedBy, reason, now)) == claims
  {
    if IndexOf(claims, claimId).Some? {
      var k := IndexOf(claims, claimId).value;
      FilterUpdateCount(claims, k, WithRejection(claims[k], rejectedBy, reason, now), IsPending);
    }
  }

  /** Putting a rejected claim back to Pending keeps its old rejection reason. */
  lemma ReopenedClaimKeepsReason(claim: Claim, rejectedBy: string, reason: string, reopenedBy: string, first: Instant, second: Instant)
    ensures WithStatus(WithRejection(claim, rejectedBy, reason, first), Pending, reopenedBy, second).rejectionReason == Some(reason)
    ensures WithStatus(WithRejection(claim, rejectedBy, reason, first), Pending, reopenedBy, second).status == Pending
  {
  }

  /** A claim keyed `claimId` is found after it was approved, with its new status. */
  lemma ApprovedClaimIsFound(claims: seq<Claim>, claimId: int, approvedBy: string, now: Instant)
    requires IndexOf(claims, claimId).Some?
    ensures GetClaimById(Rewritten(claims, claimId, SetStatus(Approved, approvedBy, now)), claimId).Some?
    ensures GetClaimById(Rewritten(claims, claimId, SetStatus(Approved, approvedBy, now)), claimId).value.status == Approved
  {
    var k := IndexOf(claims, claimId).value;
    var after := Rewritten(claims, claimId, SetStatus(Approved, approvedBy, now));
    assert after[k].claimId == claimId;
    assert forall j :: 0 <= j < k ==> after[j] == claims[j];
    assert IndexOf(after, claimId) == Some(k);
  }

  // ---------------------------------------------------------------------------
  // The unit-test scenarios

  function TestClaim(hours: real, rate: real): Claim {
    Claim(0, "test-lecturer-1", hours, rate, Pending, 0, None, None, None, None, None)
  }

  /** A 40-hour claim at R200 without a document is accepted and stored as the only, pending claim. */
  lemma ValidClaimAccepted(stamp: string, now: Instant)
    ensures SubmissionResult(TestClaim(40.0, 200.0), None, stamp).success
    ensures PendingCount([] + [Submitted(TestClaim(40.0, 200.0), None, stamp, now)]) == 1
  {
    SubmissionAddsOnePending([], TestClaim(40.0, 200.0), None, stamp, now);
  }

  /** 200 hours and a rate of R50 are refused with the messages the tests look for. */
  lemma InvalidClaimsRefused(stamp: string)
    ensures Contains(SubmissionResult(TestClaim(200.0, 200.0), None, stamp).errorMessage, "Maximum 176 hours")
    ensures !SubmissionResult(TestClaim(40.0, 50.0), None, stamp).success
    ensures SubmissionResult(TestClaim(40.0, 50.0), None, stamp).errorMessage == "Hourly rate must be between R100 and R1000"
  {
    assert OccursAt(HoursMessage, "Maximum 176 hours", 0);
  }

  /** An empty store has nothing pending and knows no claim 999. */
  lemma EmptyStoreScenarios()
    ensures GetPendingClaims([]) == []
    ensures TransitionResult([], 999) == Fail("Claim not found")
  {
  }
}
