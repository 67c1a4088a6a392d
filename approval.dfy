/**
  The approval engine (Services/ApprovalService.cs): the fixed catalogue of six approval
  criteria, the validation pass that collects every failing criterion's message, the
  auto-approval predicate, the recommendation chain, and the approve / reject / auto-approve
  transitions on the claim table.

  Which document list each part reads:
  - the SupportingDocuments criterion queries the document TABLE (`s.documents`);
  - `CanAutoApproveClaim` and the recommendation read the claim's own, LOADED list
    (`loaded`), which is the table's rows for the claim only when the caller loaded them
    with `Include(c => c.SupportingDocuments)`.
*/
module Approval {
  import opened Wrappers
  import opened Seqs
  import opened ClaimModel
  import opened CmcsDb
  import opened Text

  /** The synchronous validators a catalogue entry can carry; `AcceptAll` is the default `_ => true`. */
  datatype Validator = AcceptAll | HoursWithinLimit | RateWithinLimit | TotalWithinLimit

  datatype ApprovalCriterion = ApprovalCriterion(
    name: string,
    description: string,
    isEnabled: bool,
    validator: Validator,
    errorMessage: string,
    requiresAsyncCheck: bool)

  datatype ApprovalValidationResult = ApprovalValidationResult(
    isValid: bool,
    canAutoApprove: bool,
    validationErrors: seq<string>,
    approvalWarnings: seq<string>,
    recommendation: string)

  /** `newStatus` keeps the enum's default (Pending) on the failure paths, as in the source. */
  datatype ApprovalWorkflowResult = ApprovalWorkflowResult(
    success: bool,
    message: string,
    newStatus: ClaimStatus,
    updatedClaim: Option<Claim>)

  const HoursMessage := "Hours worked must be between 1 and 200"
  const RateMessage := "Hourly rate must be between R100 and R1000"
  const TotalMessage := "Total amount exceeds maximum limit of R50,000"
  const DuplicateMessage := "A claim already exists for this month"
  const DocumentsMessage := "Claims over R10,000 require supporting documents"
  const LecturerMessage := "Lecturer account is not active"

  const RejectAdvice := "REJECT - Validation errors found"
  const AutoApproveAdvice := "AUTO-APPROVE - Meets all auto-approval criteria"
  const ManagerAdvice := "MANAGER REVIEW - High value claim"
  const NoDocumentsAdvice := "COORDINATOR REVIEW - No supporting documents"
  const HighHoursAdvice := "COORDINATOR REVIEW - High hours worked"
  const StandardAdvice := "COORDINATOR REVIEW - Standard claim"

  const NotFoundMessage := "Claim not found"
  const CannotApprovePrefix := "Cannot approve claim with validation errors: "

  function RunValidator(v: Validator, claim: Claim): bool {
    match v
    case AcceptAll => true
    case HoursWithinLimit => 1.0 <= claim.hoursWorked <= 200.0
    case RateWithinLimit => 100.0 <= claim.hourlyRate <= 1000.0
    case TotalWithinLimit => TotalAmount(claim) <= 50000.0
  }

  const HoursLimit := ApprovalCriterion("HoursLimit", "Hours worked must be between 1 and 200", true,
                                        HoursWithinLimit, HoursMessage, false)
  const RateLimit := ApprovalCriterion("RateLimit", "Hourly rate must be between R100 and R1000", true,
                                       RateWithinLimit, RateMessage, false)
  const TotalAmountLimit := ApprovalCriterion("TotalAmountLimit", "Total amount must not exceed R50,000", true,
                                              TotalWithinLimit, TotalMessage, false)
  const DuplicateMonthPrevention := ApprovalCriterion("DuplicateMonthPrevention",
                                                      "No duplicate claims for the same month", true,
                                                      AcceptAll, DuplicateMessage, true)
  const SupportingDocuments := ApprovalCriterion("SupportingDocuments",
                                                 "Claims over R10,000 require supporting documents", true,
                                                 AcceptAll, DocumentsMessage, true)
  const LecturerActive := ApprovalCriterion("LecturerActive", "Lecturer must be active", true,
                                            AcceptAll, LecturerMessage, true)

  /** The catalogue, in the order the validation pass runs it. */
  function GetApprovalCriteria(): (cs: seq<ApprovalCriterion>)
    ensures |cs| == 6
    ensures forall i :: 0 <= i < 6 ==> cs[i].isEnabled && (cs[i].requiresAsyncCheck <==> i >= 3)
  {
    [HoursLimit, RateLimit, TotalAmountLimit, DuplicateMonthPrevention, SupportingDocuments, LecturerActive]
  }

  /** `other` blocks `claim`: same lecturer and month, a different claim, and not Rejected. */
  predicate IsDuplicateOf(other: Claim, claim: Claim) {
    && other.lecturerId == claim.lecturerId
    && other.claimMonth == claim.claimMonth
    && other.id != claim.id
    && other.status != Rejected
  }

  function DuplicatesOf(claim: Claim): Claim -> bool {
    (other: Claim) => IsDuplicateOf(other, claim)
  }

  /** The DuplicateMonthPrevention lookup: passes when no stored claim blocks this one. */
  function CheckDuplicateMonth(claims: seq<Claim>, claim: Claim): (ok: bool)
    ensures ok <==> forall i :: 0 <= i < |claims| ==> !IsDuplicateOf(claims[i], claim)
  {
    var blocking := Filter(claims, DuplicatesOf(claim));
    assert blocking != [] ==> blocking[0] in claims && IsDuplicateOf(blocking[0], claim);
    blocking == []
  }

  /** The SupportingDocuments lookup: queries the document table, not the claim's loaded list. */
  function CheckSupportingDocuments(documents: seq<SupportingDocument>, claim: Claim): (ok: bool)
    ensures ok <==> TotalAmount(claim) <= 10000.0 || exists d :: d in documents && d.claimId == claim.id
  {
    if TotalAmount(claim) <= 10000.0 then true
    else
      var found := DocumentsOf(documents, claim.id);
      assert found != [] ==> found[0] in found;
      found != []
  }

  /** The LecturerActive lookup: the first lecturer with the claim's key exists and is active. */
  function CheckLecturerActive(lecturers: seq<Lecturer>, claim: Claim): (ok: bool)
    ensures ok ==> exists l :: l in lecturers && l.id == claim.lecturerId && l.isActive
    ensures (forall k :: 0 <= k < |lecturers| ==> lecturers[k].id != claim.lecturerId) ==> !ok
    ensures forall k :: 0 <= k < |lecturers| && lecturers[k].id == claim.lecturerId ==>
      IdAbsentBefore(lecturers, claim.lecturerId, k) ==> (ok <==> lecturers[k].isActive)
  {
    match FindLecturer(lecturers, claim.lecturerId)
    case Some(l) => l.isActive
    case None => false
  }

  /** Dispatch on the criterion's name; a name it does not know passes. */
  function CheckAsyncCriterion(criterion: ApprovalCriterion, claim: Claim, s: Snapshot): (ok: bool)
    ensures criterion.name !in {"DuplicateMonthPrevention", "SupportingDocuments", "LecturerActive"} ==> ok
  {
    if criterion.name == "DuplicateMonthPrevention" then CheckDuplicateMonth(s.claims, claim)
    else if criterion.name == "SupportingDocuments" then CheckSupportingDocuments(s.documents, claim)
    else if criterion.name == "LecturerActive" then CheckLecturerActive(s.lecturers, claim)
    else true
  }

  function CriterionPasses(criterion: ApprovalCriterion, claim: Claim, s: Snapshot): bool {
    if criterion.requiresAsyncCheck then CheckAsyncCriterion(criterion, claim, s)
    else RunValidator(criterion.validator, claim)
  }

  /** What one criterion adds to the error list: its message when it is enabled and fails. */
  function Verdict(c: ApprovalCriterion, claim: Claim, s: Snapshot): seq<string> {
    if c.isEnabled && !CriterionPasses(c, claim, s) then [c.errorMessage] else []
  }

  /** The messages the validation pass collects, in catalogue order: one per enabled, failing criterion. */
  function Failures(criteria: seq<ApprovalCriterion>, claim: Claim, s: Snapshot): (errors: seq<string>)
    ensures |errors| <= |criteria|
    decreases |criteria|
  {
    if criteria == [] then []
    else
      var c := criteria[|criteria| - 1];
      Failures(criteria[..|criteria| - 1], claim, s) + Verdict(c, claim, s)
  }

  predicate IsEnabled(c: ApprovalCriterion) { c.isEnabled }

  /** A message is collected exactly when some enabled criterion carrying it fails. */
  lemma {:induction false} FailuresExactly(criteria: seq<ApprovalCriterion>, claim: Claim, s: Snapshot, m: string)
    ensures m in Failures(criteria, claim, s) <==>
      exists i :: 0 <= i < |criteria| && criteria[i].isEnabled && !CriterionPasses(criteria[i], claim, s)
                  && criteria[i].errorMessage == m
    decreases |criteria|
  {
    if criteria != [] {
      var init := criteria[..|criteria| - 1];
      FailuresExactly(init, claim, s, m);
      if m in Failures(init, claim, s) {
        var i :| 0 <= i < |init| && init[i].isEnabled && !CriterionPasses(init[i], claim, s) && init[i].errorMessage == m;
        assert criteria[i] == init[i];
      }
      if exists i :: 0 <= i < |criteria| && criteria[i].isEnabled && !CriterionPasses(criteria[i], claim, s)
                     && criteria[i].errorMessage == m {
        var i :| 0 <= i < |criteria| && criteria[i].isEnabled && !CriterionPasses(criteria[i], claim, s)
                 && criteria[i].errorMessage == m;
        if i < |init| { assert init[i] == criteria[i]; }
      }
    }
  }

  /** Disabled criteria are skipped entirely: they never contribute a message. */
  lemma {:induction false} FailuresSkipDisabled(criteria: seq<ApprovalCriterion>, claim: Claim, s: Snapshot)
    ensures Failures(criteria, claim, s) == Failures(Filter(criteria, IsEnabled), claim, s)
    decreases |criteria|
  {
    if criteria != [] {
      var init, c := criteria[..|criteria| - 1], criteria[|criteria| - 1];
      FailuresSkipDisabled(init, claim, s);
      var kept := Filter(init, IsEnabled);
      if c.isEnabled {
        assert Filter(criteria, IsEnabled) == kept + [c];
        assert (kept + [c])[..|kept + [c]| - 1] == kept;
      } else {
        assert Filter(criteria, IsEnabled) == kept;
      }
    }
  }

  lemma FailuresSnoc(criteria: seq<ApprovalCriterion>, c: ApprovalCriterion, claim: Claim, s: Snapshot)
    ensures Failures(criteria + [c], claim, s) == Failures(criteria, claim, s) + Verdict(c, claim, s)
  {
    assert (criteria + [c])[..|criteria + [c]| - 1] == criteria;
  }

  /** No message when `ok`, otherwise just `message`. */
  function Flag(ok: bool, message: string): seq<string> {
    if ok then [] else [message]
  }

  lemma PureVerdicts(claim: Claim, s: Snapshot)
    ensures Verdict(HoursLimit, claim, s) == Flag(1.0 <= claim.hoursWorked <= 200.0, HoursMessage)
    ensures Verdict(RateLimit, claim, s) == Flag(100.0 <= claim.hourlyRate <= 1000.0, RateMessage)
    ensures Verdict(TotalAmountLimit, claim, s) == Flag(TotalAmount(claim) <= 50000.0, TotalMessage)
  {
  }

  lemma LookupVerdicts(claim: Claim, s: Snapshot)
    ensures Verdict(DuplicateMonthPrevention, claim, s) == Flag(CheckDuplicateMonth(s.claims, claim), DuplicateMessage)
    ensures Verdict(SupportingDocuments, claim, s) ==
      Flag(CheckSupportingDocuments(s.documents, claim), DocumentsMessage)
    ensures Verdict(LecturerActive, claim, s) == Flag(CheckLecturerActive(s.lecturers, claim), LecturerMessage)
  {
    assert "SupportingDocuments" != "DuplicateMonthPrevention";
    assert "LecturerActive" != "DuplicateMonthPrevention" && "LecturerActive" != "SupportingDocuments";
  }

  /** A six-criterion pass collects the six verdicts, in order. */
  lemma FailuresOfSix(c0: ApprovalCriterion, c1: ApprovalCriterion, c2: ApprovalCriterion,
                      c3: ApprovalCriterion, c4: ApprovalCriterion, c5: ApprovalCriterion,
                      claim: Claim, s: Snapshot)
    ensures Failures([c0, c1, c2, c3, c4, c5], claim, s) ==
      Verdict(c0, claim, s) + Verdict(c1, claim, s) + Verdict(c2, claim, s)
      + Verdict(c3, claim, s) + Verdict(c4, claim, s) + Verdict(c5, claim, s)
  {
    var v0, v1, v2 := Verdict(c0, claim, s), Verdict(c1, claim, s), Verdict(c2, claim, s);
    var v3, v4, v5 := Verdict(c3, claim, s), Verdict(c4, claim, s), Verdict(c5, claim, s);
    assert Failures([c0], claim, s) == v0 by {
      assert [c0] == [] + [c0];
      FailuresSnoc([], c0, claim, s);
    }
    assert Failures([c0, c1], claim, s) == v0 + v1 by {
      assert [c0, c1] == [c0] + [c1];
      FailuresSnoc([c0], c1, claim, s);
    }
    assert Failures([c0, c1, c2], claim, s) == v0 + v1 + v2 by {
      assert [c0, c1, c2] == [c0, c1] + [c2];
      FailuresSnoc([c0, c1], c2, claim, s);
    }
    assert Failures([c0, c1, c2, c3], claim, s) == v0 + v1 + v2 + v3 by {
      assert [c0, c1, c2, c3] == [c0, c1, c2] + [c3];
      FailuresSnoc([c0, c1, c2], c3, claim, s);
    }
    assert Failures([c0, c1, c2, c3, c4], claim, s) == v0 + v1 + v2 + v3 + v4 by {
      assert [c0, c1, c2, c3, c4] == [c0, c1, c2, c3] + [c4];
      FailuresSnoc([c0, c1, c2, c3], c4, claim, s);
    }
    assert [c0, c1, c2, c3, c4, c5] == [c0, c1, c2, c3, c4] + [c5];
    FailuresSnoc([c0, c1, c2, c3, c4], c5, claim, s);
  }

  /** The catalogue's messages for a claim, spelled out criterion by criterion. */
  lemma CatalogueFailures(claim: Claim, s: Snapshot)
    ensures Failures(GetApprovalCriteria(), claim, s) ==
      Flag(1.0 <= claim.hoursWorked <= 200.0, HoursMessage)
      + Flag(100.0 <= claim.hourlyRate <= 1000.0, RateMessage)
      + Flag(TotalAmount(claim) <= 50000.0, TotalMessage)
      + Flag(CheckDuplicateMonth(s.claims, claim), DuplicateMessage)
      + Flag(CheckSupportingDocuments(s.documents, claim), DocumentsMessage)
      + Flag(CheckLecturerActive(s.lecturers, claim), LecturerMessage)
  {
    FailuresOfSix(HoursLimit, RateLimit, TotalAmountLimit, DuplicateMonthPrevention, SupportingDocuments,
                  LecturerActive, claim, s);
    PureVerdicts(claim, s);
    LookupVerdicts(claim, s);
  }

  /** A claim is valid exactly when all six catalogue checks pass. */
  lemma ValidExactly(claim: Claim, s: Snapshot)
    ensures Failures(GetApprovalCriteria(), claim, s) == [] <==>
      && 1.0 <= claim.hoursWorked <= 200.0
      && 100.0 <= claim.hourlyRate <= 1000.0
      && TotalAmount(claim) <= 50000.0
      && CheckDuplicateMonth(s.claims, claim)
      && CheckSupportingDocuments(s.documents, claim)
      && CheckLecturerActive(s.lecturers, claim)
  {
    CatalogueFailures(claim, s);
  }

  /** Hours outside 1..200 always produce the HoursLimit message, first, whatever else holds. */
  lemma HoursOutOfRangeAlwaysFails(claim: Claim, s: Snapshot)
    requires !(1.0 <= claim.hoursWorked <= 200.0)
    ensures var errors := Failures(GetApprovalCriteria(), claim, s); |errors| > 0 && errors[0] == HoursMessage
  {
    CatalogueFailures(claim, s);
  }

  /** `CanAutoApproveClaim`: the conservative sub-range, read off the claim's loaded documents. */
  function CanAutoApproveClaim(claim: Claim, loaded: seq<SupportingDocument>): bool {
    && TotalAmount(claim) <= 5000.0
    && |loaded| > 0
    && 1.0 <= claim.hoursWorked <= 80.0
    && 100.0 <= claim.hourlyRate <= 500.0
  }

  /**
    The auto-approval rule in full: at most R5000 in total (inclusive, although the comment
    above the rule says "less than"), at least one loaded document, 1 to 80 hours and a rate of
    R100 to R500. Such a claim's total is never below R100.
  */
  lemma AutoApprovalRule(claim: Claim, loaded: seq<SupportingDocument>)
    ensures CanAutoApproveClaim(claim, loaded) <==>
      && TotalAmount(claim) <= 5000.0
      && (exists d :: d in loaded)
      && 1.0 <= claim.hoursWorked <= 80.0
      && 100.0 <= claim.hourlyRate <= 500.0
    ensures CanAutoApproveClaim(claim, loaded) ==> 100.0 <= TotalAmount(claim)
  {
    if |loaded| > 0 {
      assert loaded[0] in loaded;
    }
    if CanAutoApproveClaim(claim, loaded) {
      TotalAmountBounds(claim, 1.0, 80.0, 100.0, 500.0);
    }
  }

  /** The limit itself is inside the rule: R5000 exactly is auto-approvable, half a rand more is not. */
  lemma AutoApprovalAtLimit(claim: Claim, doc: SupportingDocument)
    requires claim.hourlyRate == 100.0
    ensures claim.hoursWorked == 50.0 ==> CanAutoApproveClaim(claim, [doc])
    ensures claim.hoursWorked == 50.005 ==> !CanAutoApproveClaim(claim, [doc])
  {
  }

  /** Auto-approvable claims pass the three pure criteria: none of their messages can appear. */
  lemma AutoApprovableMeetsPureCriteria(claim: Claim, loaded: seq<SupportingDocument>, s: Snapshot)
    requires CanAutoApproveClaim(claim, loaded)
    ensures var errors := Failures(GetApprovalCriteria(), claim, s);
      HoursMessage !in errors && RateMessage !in errors && TotalMessage !in errors
  {
    CatalogueFailures(claim, s);
  }

  /**
    Auto-approval is decided apart from the lookup criteria: an auto-approvable claim whose
    lecturer is not on file is still invalid, and is recommended for rejection.
  */
  lemma AutoApprovableYetInvalid(claim: Claim, loaded: seq<SupportingDocument>, s: Snapshot)
    requires CanAutoApproveClaim(claim, loaded)
    requires forall k :: 0 <= k < |s.lecturers| ==> s.lecturers[k].id != claim.lecturerId
    ensures LecturerMessage in Failures(GetApprovalCriteria(), claim, s)
    ensures GetApprovalRecommendation(claim, loaded, Failures(GetApprovalCriteria(), claim, s) == [], true)
            == RejectAdvice
  {
    CatalogueFailures(claim, s);
  }

  /** The recommendation: the first matching rule of the chain wins. */
  function GetApprovalRecommendation(claim: Claim, loaded: seq<SupportingDocument>,
                                     isValid: bool, canAutoApprove: bool): (advice: string)
    ensures advice == RejectAdvice <==> !isValid
    ensures advice == AutoApproveAdvice <==> isValid && canAutoApprove
    ensures advice == ManagerAdvice <==> isValid && !canAutoApprove && TotalAmount(claim) > 20000.0
    ensures advice == NoDocumentsAdvice <==>
      isValid && !canAutoApprove && TotalAmount(claim) <= 20000.0 && loaded == []
    ensures advice == HighHoursAdvice <==>
      isValid && !canAutoApprove && TotalAmount(claim) <= 20000.0 && loaded != [] && claim.hoursWorked > 100.0
    ensures advice == StandardAdvice <==>
      isValid && !canAutoApprove && TotalAmount(claim) <= 20000.0 && loaded != [] && claim.hoursWorked <= 100.0
  {
    if !isValid then RejectAdvice
    else if canAutoApprove then AutoApproveAdvice
    else if TotalAmount(claim) > 20000.0 then ManagerAdvice
    else if loaded == [] then NoDocumentsAdvice
    else if claim.hoursWorked > 100.0 then HighHoursAdvice
    else StandardAdvice
  }

  /** The lookups all pass for this claim against this snapshot. */
  predicate LookupsPass(claim: Claim, s: Snapshot) {
    && CheckDuplicateMonth(s.claims, claim)
    && CheckSupportingDocuments(s.documents, claim)
    && CheckLecturerActive(s.lecturers, claim)
  }

  /** 40 hours at R200 with one document: valid, outside the auto-approval range, standard review. */
  lemma StandardClaimExample(claim: Claim, doc: SupportingDocument, s: Snapshot)
    requires claim.hoursWorked == 40.0 && claim.hourlyRate == 200.0
    requires LookupsPass(claim, s)
    ensures Failures(GetApprovalCriteria(), claim, s) == []
    ensures !CanAutoApproveClaim(claim, [doc])
    ensures GetApprovalRecommendation(claim, [doc], true, false) == StandardAdvice
  {
    assert TotalAmount(claim) == 8000.0;
    ValidExactly(claim, s);
  }

  /** 40 hours at R100 with one document: valid and auto-approvable. */
  lemma AutoApprovableClaimExample(claim: Claim, doc: SupportingDocument, s: Snapshot)
    requires claim.hoursWorked == 40.0 && claim.hourlyRate == 100.0
    requires LookupsPass(claim, s)
    ensures Failures(GetApprovalCriteria(), claim, s) == []
    ensures CanAutoApproveClaim(claim, [doc])
    ensures GetApprovalRecommendation(claim, [doc], true, true) == AutoApproveAdvice
  {
    assert TotalAmount(claim) == 4000.0;
    ValidExactly(claim, s);
  }

  /** 200 hours at R1000 (R200,000): only the total-amount limit fails, and the advice is to reject. */
  lemma OverLimitClaimExample(claim: Claim, s: Snapshot)
    requires claim.hoursWorked == 200.0 && claim.hourlyRate == 1000.0
    requires LookupsPass(claim, s)
    ensures Failures(GetApprovalCriteria(), claim, s) == [TotalMessage]
  {
    assert TotalAmount(claim) == 200000.0;
    CatalogueFailures(claim, s);
  }

  /** `ValidateClaimAsync`: runs every enabled criterion in order, collecting each failure's message. */
  method ValidateClaim(db: Database, claim: Claim, loaded: seq<SupportingDocument>)
    returns (result: ApprovalValidationResult)
    ensures result.validationErrors == Failures(GetApprovalCriteria(), claim, db.State())
    ensures result.isValid <==> result.validationErrors == []
    ensures result.canAutoApprove == CanAutoApproveClaim(claim, loaded)
    ensures result.recommendation ==
      GetApprovalRecommendation(claim, loaded, result.isValid, result.canAutoApprove)
    ensures result.approvalWarnings == []
  {
    var criteria := GetApprovalCriteria();
    var errors: seq<string> := [];
    for i := 0 to |criteria|
      invariant errors == Failures(criteria[..i], claim, db.State())
    {
      var criterion := criteria[i];
      assert criteria[..i + 1][..i] == criteria[..i];
      if criterion.isEnabled {
        var isValid: bool;
        if criterion.requiresAsyncCheck {
          isValid := CheckAsyncCriterion(criterion, claim, db.State());
        } else {
          isValid := RunValidator(criterion.validator, claim);
        }
        if !isValid {
          errors := errors + [criterion.errorMessage];
        }
      }
    }
    assert criteria[..|criteria|] == criteria;
    var isValid := errors == [];
    var canAutoApprove := CanAutoApproveClaim(claim, loaded);
    result := ApprovalValidationResult(isValid, canAutoApprove, errors, [],
                GetApprovalRecommendation(claim, loaded, isValid, canAutoApprove));
  }

  /** The approve branch of the workflow: status, decision stamp, approver, reason cleared. */
  function ApproveClaim(claim: Claim, approvedBy: string, now: Instant): (r: Claim)
    ensures r.status == Approved && r.approvalDate == Some(now) && r.approvedBy == Some(approvedBy)
    ensures r.rejectionReason == None
    ensures SameClaimData(r, claim)
    ensures forall t :: !IsOverdue(r, t)
  {
    claim.(status := Approved, approvalDate := Some(now), approvedBy := Some(approvedBy),
           rejectionReason := None)
  }

  /** The reject branch of the workflow: a missing reason becomes "No reason provided". */
  function RejectClaim(claim: Claim, approvedBy: string, reason: Option<string>, now: Instant): (r: Claim)
    ensures r.status == Rejected && r.approvalDate == Some(now) && r.approvedBy == Some(approvedBy)
    ensures reason.Some? ==> r.rejectionReason == reason
    ensures reason.None? ==> r.rejectionReason == Some("No reason provided")
    ensures SameClaimData(r, claim)
    ensures forall t :: !IsOverdue(r, t)
    ensures forall other :: !IsDuplicateOf(r, other)
  {
    claim.(status := Rejected, approvalDate := Some(now), approvedBy := Some(approvedBy),
           rejectionReason := Some(reason.GetOr("No reason provided")))
  }

  /** Auto-approval's stamp; unlike the workflow it leaves the rejection reason as it was. */
  function AutoApproveStamp(claim: Claim, approvedBy: string, now: Instant): (r: Claim)
    ensures r.status == Approved && r.approvalDate == Some(now)
    ensures r.approvedBy == Some("Auto-Approved by " + approvedBy)
    ensures r.rejectionReason == claim.rejectionReason
    ensures SameClaimData(r, claim)
    ensures forall t :: !IsOverdue(r, t)
  {
    claim.(status := Approved, approvalDate := Some(now),
           approvedBy := Some("Auto-Approved by " + approvedBy))
  }

  /** A decision changes only the status and the audit fields: what was claimed stays as it was. */
  predicate SameClaimData(a: Claim, b: Claim) {
    && a.id == b.id && a.lecturerId == b.lecturerId && a.submissionDate == b.submissionDate
    && a.claimMonth == b.claimMonth && a.hoursWorked == b.hoursWorked && a.hourlyRate == b.hourlyRate
    && a.notes == b.notes
  }

  /**
    `ProcessApprovalWorkflowAsync`. The claim is loaded with its lecturer but not with its
    documents, so its own document list is whatever the context already tracks for it
    (`tracked`; empty in a fresh context). Loading the lecturer is an inner join, so a claim
    whose lecturer row is missing is not found. Neither branch looks at the current status.
  */
  method ProcessApprovalWorkflow(db: Database, claimId: int, approvedBy: string, isApproved: bool,
                                 rejectionReason: Option<string>, tracked: seq<SupportingDocument>,
                                 now: Instant)
    returns (result: ApprovalWorkflowResult)
    modifies db`claims
    ensures LecturerClaimIndex(old(db.claims), old(db.lecturers), claimId).None? ==>
      result == ApprovalWorkflowResult(false, NotFoundMessage, Pending, None) && db.claims == old(db.claims)
    ensures LecturerClaimIndex(old(db.claims), old(db.lecturers), claimId).Some? ==>
      var k := LecturerClaimIndex(old(db.claims), old(db.lecturers), claimId).value;
      var claim := old(db.claims)[k];
      var errors := Failures(GetApprovalCriteria(), claim, old(db.State()));
      && (isApproved && errors != [] ==>
            && result == ApprovalWorkflowResult(false, CannotApprovePrefix + Join(errors, ", "), Pending, None)
            && db.claims == old(db.claims))
      && (isApproved && errors == [] ==>
            && result.success && result.newStatus == Approved
            && result.updatedClaim == Some(ApproveClaim(claim, approvedBy, now))
            && result.message == (if CanAutoApproveClaim(claim, tracked) then "Claim auto-approved successfully"
                                  else "Claim manually approved successfully")
            && db.claims == old(db.claims)[k := ApproveClaim(claim, approvedBy, now)])
      && (!isApproved ==>
            && result == ApprovalWorkflowResult(true, "Claim rejected successfully", Rejected,
                                                Some(RejectClaim(claim, approvedBy, rejectionReason, now)))
            && db.claims == old(db.claims)[k := RejectClaim(claim, approvedBy, rejectionReason, now)])
  {
    var index := LecturerClaimIndex(db.claims, db.lecturers, claimId);
    if index.None? {
      return ApprovalWorkflowResult(false, NotFoundMessage, Pending, None);
    }
    var k := index.value;
    var claim := db.claims[k];
    var validation := ValidateClaim(db, claim, tracked);
    var updated: Claim;
    var message: string;
    if isApproved {
      if !validation.isValid && |validation.validationErrors| > 0 {
        return ApprovalWorkflowResult(false, CannotApprovePrefix + Join(validation.validationErrors, ", "),
                                      Pending, None);
      }
      updated := ApproveClaim(claim, approvedBy, now);
      message := if validation.canAutoApprove then "Claim auto-approved successfully"
                 else "Claim manually approved successfully";
    } else {
      updated := RejectClaim(claim, approvedBy, rejectionReason, now);
      message := "Claim rejected successfully";
    }
    db.claims := db.claims[k := updated];
    result := ApprovalWorkflowResult(true, message, updated.status, Some(updated));
  }

  /**
    `AutoApproveClaimAsync`: stamps and saves the given claim exactly when it is auto-approvable.
    The claim is taken to be the tracked instance of a stored row. Saving a claim whose non-zero
    key is not in the table fails, which the source reports as `false`. A claim with key 0 would
    be inserted instead; that case is not modelled.
  */
  method AutoApproveClaim(db: Database, claim: Claim, loaded: seq<SupportingDocument>,
                          approvedBy: string, now: Instant)
    returns (approved: bool)
    modifies db`claims
    ensures approved <==> CanAutoApproveClaim(claim, loaded) && ClaimIndex(old(db.claims), claim.id).Some?
    ensures approved ==>
      db.claims == old(db.claims)[ClaimIndex(old(db.claims), claim.id).value := AutoApproveStamp(claim, approvedBy, now)]
    ensures !approved ==> db.claims == old(db.claims)
  {
    var validation := ValidateClaim(db, claim, loaded);
    if !validation.canAutoApprove {
      return false;
    }
    var index := ClaimIndex(db.claims, claim.id);
    if index.None? {
      return false;
    }
    db.claims := db.claims[index.value := AutoApproveStamp(claim, approvedBy, now)];
    approved := true;
  }

  function AutoApprovable(documents: seq<SupportingDocument>): Claim -> bool {
    (c: Claim) => CanAutoApproveClaim(c, DocumentsOf(documents, c.id))
  }

  /**
    The candidate list: the Pending claims whose lecturer row exists, in table order, that are
    auto-approvable with their documents loaded.
  */
  function AutoApprovalCandidates(s: Snapshot): seq<Claim> {
    Filter(Filter(ClaimsWithLecturer(s.claims, s.lecturers), IsPending), AutoApprovable(s.documents))
  }

  lemma AutoApprovalCandidatesExactly(s: Snapshot, c: Claim)
    ensures c in AutoApprovalCandidates(s) <==>
      && c in s.claims && FindLecturer(s.lecturers, c.lecturerId).Some? && c.status == Pending
      && CanAutoApproveClaim(c, DocumentsOf(s.documents, c.id))
  {
    var joined := ClaimsWithLecturer(s.claims, s.lecturers);
    var pending := Filter(joined, IsPending);
    var r := Filter(pending, AutoApprovable(s.documents));
    if c in r {
      var i :| 0 <= i < |r| && r[i] == c;
      assert r[i] in pending;
      var j :| 0 <= j < |pending| && pending[j] == c;
    }
    if && c in s.claims && FindLecturer(s.lecturers, c.lecturerId).Some? && c.status == Pending
       && CanAutoApproveClaim(c, DocumentsOf(s.documents, c.id)) {
      var i :| 0 <= i < |joined| && joined[i] == c;
      assert c in pending;
      var j :| 0 <= j < |pending| && pending[j] == c;
    }
  }

  /** `GetClaimsForAutoApprovalAsync`: the Pending claims, lecturer and documents included, filtered one by one. */
  method GetClaimsForAutoApproval(db: Database) returns (candidates: seq<Claim>)
    ensures candidates == AutoApprovalCandidates(db.State())
  {
    var claims := Filter(ClaimsWithLecturer(db.claims, db.lecturers), IsPending);
    var documents := db.documents;
    candidates := [];
    for i := 0 to |claims|
      invariant candidates == Filter(claims[..i], AutoApprovable(documents))
    {
      assert claims[..i + 1][..i] == claims[..i];
      if CanAutoApproveClaim(claims[i], DocumentsOf(documents, claims[i].id)) {
        candidates := candidates + [claims[i]];
      }
    }
    assert claims[..|claims|] == claims;
  }

  /** Two Pending claims of one lecturer for one month block each other; a Rejected one blocks nothing. */
  lemma DuplicateMonthExamples(first: Claim, second: Claim)
    requires first.lecturerId == second.lecturerId && first.claimMonth == second.claimMonth
    requires first.id != second.id
    ensures first.status == Pending ==> !CheckDuplicateMonth([first, second], second)
    ensures first.status == Rejected ==> CheckDuplicateMonth([first, second], second)
  {
  }

  /** Adding claims that are Rejected, or that share the claim's own key, never changes the duplicate check. */
  lemma {:induction false} DuplicateIgnoresSelfAndRejected(claims: seq<Claim>, extra: seq<Claim>, claim: Claim)
    requires forall i :: 0 <= i < |extra| ==> extra[i].id == claim.id || extra[i].status == Rejected
    ensures CheckDuplicateMonth(claims + extra, claim) == CheckDuplicateMonth(claims, claim)
  {
    FilterAppend(claims, extra, DuplicatesOf(claim));
    if Filter(extra, DuplicatesOf(claim)) != [] {
      var e := Filter(extra, DuplicatesOf(claim))[0];
      assert e in extra;
    }
  }
}
