# CMCS claim engine in Dafny

This project models the business core of CMCS, the Contract Monthly Claim System. CMCS is an
ASP.NET Core application in which lecturers submit monthly claims for hours worked. Programme
coordinators and academic managers approve or reject the claims, HR marks them as paid and
produces reports. The model covers the parts of the services that decide things:

- **The claim entity** (`ClaimModel`). It covers the claim's derived total, its days pending, the
  overdue flag, the defaults of a new claim and the three-valued status.
- **The database** (`CmcsDb`). The lecturer, claim and supporting-document tables are held in a
  `Database` class whose `seq` fields the services reassign. It also has the
  `FirstOrDefault`-by-key lookups and the document relation keyed by the claim's id. It also has
  the claim table as `Include(c => c.Lecturer)` reads it. `LecturerId` is a required foreign key
  (Claim.cs:42), so that include is an inner join: a claim whose lecturer row is missing is not
  loaded. Every query that includes the lecturer is modelled over that join.
- **The approval engine** (`Approval`). It covers:
  - the catalogue of six criteria;
  - the validation loop, which collects every failing criterion's message;
  - the three database lookups;
  - the auto-approval predicate and the recommendation chain;
  - the approve/reject workflow;
  - auto-approval and its candidate list.

  `CanAutoApproveClaim` and the recommendation read the claim's *loaded* document list, which is
  a parameter. The SupportingDocuments criterion reads the document *table*.
- **The status tracker** (`Status`). It covers:
  - direct status changes and their audit stamps;
  - the derived one- or two-entry history;
  - the overview counts and amounts;
  - the overdue list;
  - the seven-day trend loop.
- **The file rules** (`Files`). It covers:
  - the ordered acceptance chain;
  - the 1024-step size rendering loop;
  - the preview URL;
  - the document-table effects of upload and delete.
- **The second-revision claim service** (`ClaimServiceRev2`). It has its own claim shape (string
  lecturer id, processing stamp, a fourth status `Paid`). It covers:
  - the submission rules;
  - the upload accept/reject decision;
  - the approve, reject and set-status transitions on a `ClaimStore` class;
  - the filtered and ordered queries.
- **Report aggregation** (`Reports`). It covers `CalculateSummary` and the date filter, grouping
  and ordering of the four report generators.

`Seqs` gives the LINQ operators the services use: `Where` (`Filter`), `Sum`, the stable
`OrderBy`/`OrderByDescending` (`SortBy`), `GroupBy` keys (`Keys`) and `Distinct().Count()`
(`Image`). `Text` gives the framework string operations: `Path.GetExtension`, `ToLowerInvariant`,
`Contains`, integer rendering and `string.Join`. `Wrappers` has `Option`.

Conventions:

- **Time.** An instant is an integer count of seconds. `DateTime.Now` and `DateTime.UtcNow` are a
  `now` parameter, and `DateTime.Today` is `DayOf(now)`.
- **Amounts.** Amounts are exact `real`s. `TotalAmount` is the exact product of hours and rate.
- **Failures.** The error paths the code takes deterministically are modelled as result values.
  These are an unknown key and a failed validation. A claim whose lecturer row is missing
  counts as unknown to every lookup that includes the lecturer.

## Model

| member | source | states |
|---|---|---|
| ClaimModel.WholeDays | CMCS_Part3/Models/Claim.cs:53 | `TimeSpan.Days` truncates toward zero: for a forward span, d whole days fit and d+1 do not; symmetric for a backward span |
| ClaimModel.DaysPending | CMCS_Part3/Models/Claim.cs:53 | the whole days since submission: for a past submission d ≥ 0 full days have passed and d+1 have not; a future submission gives d ≤ 0 |
| ClaimModel.NewClaim | CMCS_Part3/Models/Claim.cs:10-46 | a new claim is Pending, submitted now, with no approval date, approver or rejection reason, 0 days pending and not overdue |
| ClaimModel.IsOverdueExactly | CMCS_Part3/Models/Claim.cs:53-56 | a claim is overdue iff it is Pending and at least 31 full days (31·86400 s) have passed since submission |
| ClaimModel.TotalAmountBounds | CMCS_Part3/Models/Claim.cs:50 | the derived total hours×rate lies between the products of the bounds on hours and rate |
| ClaimModel.StatusCountsPartition | CMCS_Part3/Models/Claim.cs:59-64 | with three statuses, the Pending, Approved and Rejected counts of any claim list add up to its length |
| CmcsDb.Database.constructor | CMCS_Part3/Models/CMCSDbContext.cs:11-13 | the context starts with the three given tables |
| CmcsDb.Database.State | CMCS_Part3/Models/CMCSDbContext.cs:11-13 | the snapshot holds exactly the current three tables |
| CmcsDb.FindClaim | CMCS_Part3/Services/StatusService.cs:152-157 | the claim found is the row at the first position with the key; none iff there is no such position |
| CmcsDb.FindLecturer | CMCS_Part3/Services/ApprovalService.cs:295-296 | a lecturer found is in the table with that id; none iff no lecturer has the id; when one has it, the result is the first such lecturer |
| CmcsDb.ClaimsWithLecturer | CMCS_Part3/Models/Claim.cs:42-45 | `Include(c => c.Lecturer)` on the required key loads exactly the stored claims whose lecturer row exists |
| CmcsDb.LecturerClaimIndex | CMCS_Part3/Services/StatusService.cs:23-25 | the claim an including `FirstOrDefault` by id loads: the first with the key whose lecturer exists; none iff every claim with the key lacks its lecturer |
| CmcsDb.FindClaimWithLecturer | CMCS_Part3/Services/StatusService.cs:83-85 | the claim found is the row at that first joined position; none iff there is none |
| CmcsDb.LecturerClaimIndexWhenLecturersExist | CMCS_Part3/Services/ApprovalService.cs:94-96 | when every claim's lecturer exists the join loses nothing: the joined lookup is the plain key lookup |
| CmcsDb.OrphanClaimNotFound | CMCS_Part3/Services/StatusService.cs:23-30 | a stored claim whose lecturer row is missing is found by the plain lookup but not by the including one |
| CmcsDb.DocumentsOf | CMCS_Part3/Services/ApprovalService.cs:212 | `Include(SupportingDocuments)` loads exactly the table rows whose ClaimId is the claim's id |
| Approval.GetApprovalCriteria | CMCS_Part3/Services/ApprovalService.cs:156-206 | six criteria, all enabled; exactly the last three (the lookups) require the asynchronous check |
| Approval.CheckDuplicateMonth | CMCS_Part3/Services/ApprovalService.cs:274-282 | passes iff no stored claim has the same lecturer and month, a different id and a non-Rejected status |
| Approval.CheckSupportingDocuments | CMCS_Part3/Services/ApprovalService.cs:284-291 | passes iff the total is at most 10000 or the document table holds a row for the claim |
| Approval.CheckLecturerActive | CMCS_Part3/Services/ApprovalService.cs:293-298 | passes iff the first lecturer with the claim's lecturer id is active; a missing lecturer fails |
| Approval.CheckAsyncCriterion | CMCS_Part3/Services/ApprovalService.cs:263-272 | a criterion name outside the three lookups passes |
| Approval.Failures | CMCS_Part3/Services/ApprovalService.cs:29-49 | the pass collects at most one message per criterion |
| Approval.FailuresExactly | CMCS_Part3/Services/ApprovalService.cs:31-48 | a message is collected iff some enabled criterion carrying it fails |
| Approval.FailuresSkipDisabled | CMCS_Part3/Services/ApprovalService.cs:31 | disabled criteria contribute nothing: running all equals running the enabled ones |
| Approval.FailuresSnoc | CMCS_Part3/Services/ApprovalService.cs:31-48 | appending a criterion appends exactly its own verdict (no short-circuit) |
| Approval.PureVerdicts | CMCS_Part3/Services/ApprovalService.cs:160-183 | HoursLimit fails iff hours outside 1..200, RateLimit iff rate outside 100..1000, TotalAmountLimit iff total > 50000, each with its fixed message |
| Approval.LookupVerdicts | CMCS_Part3/Services/ApprovalService.cs:184-204 | the three lookup criteria fail iff their database check fails, each with its fixed message |
| Approval.CatalogueFailures | CMCS_Part3/Services/ApprovalService.cs:29-49 | the error list is the six verdicts concatenated in catalogue order |
| Approval.ValidExactly | CMCS_Part3/Services/ApprovalService.cs:51 | the error list is empty iff all six checks pass |
| Approval.HoursOutOfRangeAlwaysFails | CMCS_Part3/Services/ApprovalService.cs:160-167 | hours outside 1..200 always make the hours message the first error |
| Approval.AutoApprovableMeetsPureCriteria | CMCS_Part3/Services/ApprovalService.cs:229-241 | an auto-approvable claim never fails hours, rate or total limits |
| Approval.AutoApprovalRule | CMCS_Part3/Services/ApprovalService.cs:229-241 | auto-approvable iff total ≤ R5000 (inclusive, as the code has it; the comment says "less than"), some loaded document, 1–80 hours and a R100–R500 rate; such a total is at least R100 |
| Approval.AutoApprovalAtLimit | CMCS_Part3/Services/ApprovalService.cs:236 | 50 h at R100 (exactly R5000) with a document is auto-approvable; 50.005 h (R5000.50) is not |
| Approval.AutoApprovableYetInvalid | CMCS_Part3/Services/ApprovalService.cs:54 | auto-approvability ignores the lookups: with no lecturer on file the claim is still invalid and recommended for rejection |
| Approval.GetApprovalRecommendation | CMCS_Part3/Services/ApprovalService.cs:243-261 | each of the six advices is returned iff its rule is the first in the chain that matches |
| Approval.StandardClaimExample | CMCS_Part3/Services/ApprovalService.cs:243-261 | 40 h at R200 with a document and passing lookups: valid, not auto-approvable, standard review |
| Approval.AutoApprovableClaimExample | CMCS_Part3/Services/ApprovalService.cs:229-249 | 40 h at R100 with a document and passing lookups: valid, auto-approvable, auto-approve advice |
| Approval.OverLimitClaimExample | CMCS_Part3/Services/ApprovalService.cs:176-183 | 200 h at R1000 with passing lookups: the only error is the total-limit message |
| Approval.ValidateClaim | CMCS_Part3/Services/ApprovalService.cs:17-58 | the loop collects exactly the catalogue's failures; IsValid iff no error; CanAutoApprove and the recommendation as defined; no warnings |
| Approval.ProcessApprovalWorkflow | CMCS_Part3/Services/ApprovalService.cs:88-154 | unknown id, or only claims without a lecturer row: "Claim not found", no change; approve with errors: the joined error message, no change; otherwise the first joined claim with the id is approved (approver, date, reason cleared) or rejected (reason or "No reason provided"), whatever its prior status |
| Approval.AutoApproveClaim | CMCS_Part3/Services/ApprovalService.cs:60-86 | returns true iff the claim is auto-approvable and stored; then it is stamped "Auto-Approved by …"; otherwise nothing changes |
| Approval.ApproveClaim | CMCS_Part3/Services/ApprovalService.cs:117-120 | an approval sets Approved, the date and the approver, and clears the reason; what was claimed is unchanged; the result is never overdue |
| Approval.RejectClaim | CMCS_Part3/Services/ApprovalService.cs:128-131 | a rejection sets Rejected, the date, the approver and the given reason or "No reason provided"; what was claimed is unchanged; the result never blocks another claim's month |
| Approval.AutoApproveStamp | CMCS_Part3/Services/ApprovalService.cs:68-70 | auto-approval sets Approved, the date and "Auto-Approved by " + the approver, and keeps the old rejection reason; what was claimed is unchanged |
| Approval.AutoApprovalCandidatesExactly | CMCS_Part3/Services/ApprovalService.cs:208-227 | a claim is a candidate iff it is stored, its lecturer row exists, it is Pending and it is auto-approvable with its table documents |
| Approval.GetClaimsForAutoApproval | CMCS_Part3/Services/ApprovalService.cs:208-227 | the loop returns the Pending auto-approvable claims whose lecturer exists, in table order |
| Approval.DuplicateMonthExamples | CMCS_Part3/Services/ApprovalService.cs:274-282 | a Pending claim of the same lecturer and month blocks; a Rejected one does not |
| Approval.DuplicateIgnoresSelfAndRejected | CMCS_Part3/Services/ApprovalService.cs:277-280 | adding Rejected claims or rows with the claim's own id never changes the duplicate check |
| Status.ApplyStatus | CMCS_Part3/Services/StatusService.cs:38-52 | the whole new claim: the status always changes; Approved and Rejected stamp approver and date; Approved clears the reason; Rejected records the notes, or "No reason provided" without them; Pending keeps every audit field; id, lecturer, month, hours, rate, notes and submission date unchanged |
| Status.ApplyStatusAgreesWithWorkflow | CMCS_Part3/Services/StatusService.cs:41-52 | a direct change to Approved or Rejected stamps the claim exactly as the approval workflow does |
| Status.UpdateClaimStatus | CMCS_Part3/Services/StatusService.cs:17-79 | unknown id, or only claims without a lecturer row: "Claim not found" and no change; otherwise only the first joined claim with the id changes, with previous and new status and the message "Claim status updated from X to Y" |
| Status.ClaimHistory | CMCS_Part3/Services/StatusService.cs:90-114 | the submission entry, plus the decision entry iff an approval date is set, ordered by time; a tie keeps the submission first |
| Status.GetStatusHistory | CMCS_Part3/Services/StatusService.cs:81-115 | unknown claim, or one without a lecturer row: empty; otherwise the history of the first claim with the id whose lecturer exists, sorted by time |
| Status.PendingResetHistory | CMCS_Part3/Services/StatusService.cs:102-111 | a Rejected claim with a lecturer, reset to Pending, still shows a second entry, now Pending, with the rejection note |
| Status.GetOverdueClaims | CMCS_Part3/Services/StatusService.cs:137-144 | exactly the overdue claims whose lecturer exists, with multiplicity, all Pending, oldest submission first |
| Status.OverdueWithinPending | CMCS_Part3/Services/StatusService.cs:123-126 | there are never more overdue claims than pending ones |
| Status.AmountNonNegative | CMCS_Part3/Models/Claim.cs:17-23 | claims within the declared ranges sum to a non-negative amount |
| Status.Bucket | CMCS_Part3/Services/StatusService.cs:175-181 | a bucket's three status counts add up to the day's claims |
| Status.TrendFor | CMCS_Part3/Services/StatusService.cs:171-181 | a day's bucket counts every claim submitted that day exactly once |
| Status.FilterSameOn | CMCS_Part3/Services/StatusService.cs:172 | filters by pointwise-equal predicates agree |
| Status.DayWindow | CMCS_Part3/Services/StatusService.cs:168-172 | the window from the day's start to one tick before the next day is exactly that calendar day |
| Status.WindowTrend | CMCS_Part3/Services/StatusService.cs:167-181 | counting the day's window gives that day's bucket |
| Status.CountDay | CMCS_Part3/Services/StatusService.cs:167-181 | one loop step: the bucket built from the day's window is that day's trend entry |
| Status.GetRecentStatusTrends | CMCS_Part3/Services/StatusService.cs:160-185 | the loop yields 7 buckets, for today-6 up to today, in that order |
| Status.GetStatusOverview | CMCS_Part3/Services/StatusService.cs:117-135 | total, per-status counts and amounts, overdue count; the status counts add up to the total, overdue ≤ pending, amounts ≥ 0 within the declared ranges, and 7 trend buckets |
| Status.GetClaimStatus | CMCS_Part3/Services/StatusService.cs:152-158 | the stored status of the first row with the key; Pending when the key is unknown |
| Files.GetSupportedFileTypes | CMCS_Part3/Services/FileService.cs:117-120 | three lower-case dotted extensions |
| Files.GetMaxFileSize | CMCS_Part3/Services/FileService.cs:122-125 | the limit is 5·1024·1024 bytes |
| Files.GetFilePreviewUrl | CMCS_Part3/Services/FileService.cs:127-130 | the URL is "/uploads/" followed by exactly the stored name |
| Files.Scale | CMCS_Part3/Services/FileService.cs:177-183 | the unit index never passes "GB"; below "GB" the scaled value is under 1024 |
| Files.ScaleIsFloor | CMCS_Part3/Services/FileService.cs:179-183 | the scaled value is the size divided by 1024 per unit step, rounded down |
| Files.MaxFileSizeText | CMCS_Part3/Services/FileService.cs:148 | the limit renders as "5 MB" |
| Files.FormatFileSize | CMCS_Part3/Services/FileService.cs:175-185 | the loop produces the scaled value and its unit |
| Files.FileSizeTextUnits | CMCS_Part3/Services/FileService.cs:175-185 | below 1 KiB the size is shown in B, then KB, MB up to 1 GiB, and GB beyond, each as the size divided by 1024 per step, rounded down |
| Files.ValidateFile | CMCS_Part3/Services/FileService.cs:132-173 | accepts iff present, non-empty, at most the limit, a supported lower-cased extension and a safe name; otherwise the first failing check's message |
| Files.ValidationMessages | CMCS_Part3/Services/FileService.cs:148-159 | the size message names "5 MB"; the type message lists ".pdf, .docx, .xlsx" |
| Files.AcceptedTypeIsSupported | CMCS_Part3/Services/FileService.cs:153-156 | an accepted file has a non-empty extension among .pdf, .docx, .xlsx |
| Files.AbsentChar | CMCS_Part3/Services/FileService.cs:164 | a name without a character does not contain it |
| Files.AbsentDoubleDot | CMCS_Part3/Services/FileService.cs:164 | a name without adjacent dots does not contain ".." |
| Files.CapitalisedExtension | CMCS_Part3/Services/FileService.cs:153 | the extension of "stem.PDF" lower-cases to ".pdf" |
| Files.LowerCaseStemIsSafe | CMCS_Part3/Services/FileService.cs:164 | a lower-case stem with ".PDF" passes the file-name check |
| Files.SafeFileNameExactly | CMCS_Part3/Services/FileService.cs:164 | a name passes iff it has no '/', no '\\' and no two adjacent dots |
| Files.LimitSizeAndCapitalisedExtensionAccepted | CMCS_Part3/Services/FileService.cs:145-156 | a file of exactly 5 MiB named "stem.PDF" is accepted |
| Files.OverLimitRejected | CMCS_Part3/Services/FileService.cs:145-150 | one byte over the limit is rejected with the size message |
| Files.UploadFile | CMCS_Part3/Services/FileService.cs:19-83 | a rejected file leaves the table unchanged and passes the message on; an accepted one appends exactly one row with claim id, name, size and lower-cased extension |
| Files.UploadedDocumentOfAcceptedFile | CMCS_Part3/Services/FileService.cs:35-63 | an accepted file's row keeps the claim id, client name and size; its type is a supported extension, and its stored name ends in that same extension |
| Files.UploadSatisfiesDocumentsCriterion | CMCS_Part3/Services/FileService.cs:54-65 | after an upload the claim's documents gain exactly the new row and the SupportingDocuments criterion passes |
| Files.RemoveStored | CMCS_Part3/Services/FileService.cs:101-105 | with no match the table is unchanged; otherwise exactly the first matching row is removed |
| Files.DeleteFile | CMCS_Part3/Services/FileService.cs:85-115 | returns true and removes the first row with the stored name, if any |
| Files.UploadThenDelete | CMCS_Part3/Services/FileService.cs:54-105 | when no earlier row has the stored name, deleting a freshly uploaded file restores the table |
| ClaimServiceRev2.UploadDocument | CMCS_Part3/Services/ClaimService.cs:150-182 | accepts iff size ≤ 5 MiB and the lower-cased extension is in the five allowed ones; size is checked first; an accepted file is reported at "/uploads/{id}_{stamp}{ext}" |
| ClaimServiceRev2.StoredPathKeepsExtension | CMCS_Part3/Services/ClaimService.cs:160-168 | the stored path's extension is the document's lower-cased extension |
| ClaimServiceRev2.FileServiceAcceptanceSuffices | CMCS_Part3/Services/ClaimService.cs:154-162 | every file the file service accepts, this upload accepts too |
| ClaimServiceRev2.ImagesAcceptedOnlyHere | CMCS_Part3/Services/ClaimService.cs:154 | a non-empty ".jpg" within the limit is accepted here and refused by the file service |
| ClaimServiceRev2.SubmissionResult | CMCS_Part3/Services/ClaimService.cs:18-52 | succeeds iff hours ≤ 176, 100 ≤ rate ≤ 1000 and any non-empty document is accepted; the hours, rate and upload messages in that order of precedence |
| ClaimServiceRev2.Submitted | CMCS_Part3/Services/ClaimService.cs:36-41 | the stored claim is Pending, submitted now, with the document path and name when one was uploaded, otherwise unchanged |
| ClaimServiceRev2.WithStatus | CMCS_Part3/Services/ClaimService.cs:137-139 | sets status, processor and processing date and nothing else |
| ClaimServiceRev2.WithRejection | CMCS_Part3/Services/ClaimService.cs:108-111 | a rejection is the status update to Rejected plus the given reason |
| ClaimServiceRev2.Rewritten | CMCS_Part3/Services/ClaimService.cs:83-89 | only the row holding the key changes; the length is kept |
| ClaimServiceRev2.TransitionResult | CMCS_Part3/Services/ClaimService.cs:83-85 | a transition succeeds iff the key exists, and fails with "Claim not found" otherwise |
| ClaimServiceRev2.GetPendingClaims | CMCS_Part3/Services/ClaimService.cs:54-61 | exactly the Pending claims, with multiplicity, oldest submission first |
| ClaimServiceRev2.GetClaimsByLecturer | CMCS_Part3/Services/ClaimService.cs:63-69 | exactly that lecturer's claims, with multiplicity, newest first |
| ClaimServiceRev2.GetAllClaims | CMCS_Part3/Services/ClaimService.cs:71-77 | a permutation of all claims, newest first |
| ClaimServiceRev2.GetClaimById | CMCS_Part3/Services/ClaimService.cs:122-127 | the first stored claim with the key; none iff no claim has it |
| ClaimServiceRev2.ClaimStore.constructor | CMCS_Part3/Services/ClaimService.cs:12-16 | the store starts with the given claims |
| ClaimServiceRev2.ClaimStore.SubmitClaim | CMCS_Part3/Services/ClaimService.cs:18-52 | replies as SubmissionResult; on success appends exactly the submitted claim, otherwise stores nothing |
| ClaimServiceRev2.ClaimStore.ApproveClaim | CMCS_Part3/Services/ClaimService.cs:79-98 | "Claim not found" and no change for an unknown key; otherwise only that claim becomes Approved with the processor stamp, whatever its prior status |
| ClaimServiceRev2.ClaimStore.RejectClaim | CMCS_Part3/Services/ClaimService.cs:100-120 | as approval, but Rejected and with the given reason |
| ClaimServiceRev2.ClaimStore.UpdateClaimStatus | CMCS_Part3/Services/ClaimService.cs:129-148 | any status, Paid included, with the processor stamp; "Claim not found" and no change for an unknown key |
| ClaimServiceRev2.SubmissionAddsOnePending | CMCS_Part3/Services/ClaimService.cs:40-46 | a successful submission raises the pending count by exactly one |
| ClaimServiceRev2.TransitionPendingCount | CMCS_Part3/Services/ClaimService.cs:137-139 | a status update moves only the keyed claim into or out of the pending count |
| ClaimServiceRev2.RejectionLeavesPending | CMCS_Part3/Services/ClaimService.cs:104-111 | rejecting a pending claim lowers the pending count by one; an unknown key changes nothing |
| ClaimServiceRev2.ReopenedClaimKeepsReason | CMCS_Part3/Services/ClaimService.cs:137-139 | a rejected claim set back to Pending keeps its rejection reason |
| ClaimServiceRev2.ApprovedClaimIsFound | CMCS_Part3/Services/ClaimService.cs:87-89 | after approval the claim is found by key with status Approved |
| ClaimServiceRev2.ValidClaimAccepted | CMCS_Part3.Tests/Services/ClaimServiceTests.cs:22-44 | 40 h at R200 without a document is accepted and the store then holds one pending claim |
| ClaimServiceRev2.InvalidClaimsRefused | CMCS_Part3.Tests/Services/ClaimServiceTests.cs:46-92 | 200 h fails with a message containing "Maximum 176 hours"; a rate of 50 fails with the rate message |
| ClaimServiceRev2.EmptyStoreScenarios | CMCS_Part3.Tests/Services/ClaimServiceTests.cs:94-128 | an empty store has no pending claims and refuses claim 999 with "Claim not found" |
| Reports.YearMonthOf | CMCS_Part3/Services/ReportService.cs:38 | the month of a day number is a proper month 1..12 |
| Reports.CalendarExamples | CMCS_Part3/Services/ReportService.cs:38 | day 0 is January 1970, day 31 February, day 59 March, day -1 December 1969 |
| Reports.MonthOf | CMCS_Part3/Services/ReportService.cs:38 | the monthly grouping key is a proper month |
| Reports.MonthTitleParts | CMCS_Part3/Services/ReportService.cs:42 | a month title is the month's full name, a space and the year padded to at least four digits |
| Reports.MonthTitleExamples | CMCS_Part3/Services/ReportService.cs:42 | March 2024 reads "March 2024"; December of year 987 reads "December 0987" |
| Reports.PeriodIndexOrders | CMCS_Part3/Services/ReportService.cs:46-48 | ordering by the first of the month orders exactly as the calendar, and equal periods are equal months |
| Reports.CalculateSummary | CMCS_Part3/Services/ReportService.cs:292-308 | count and total; Approved + Pending + Rejected = total claims; average 0 when empty else total/count; distinct lecturers ≤ claims; distinct non-empty departments ≤ distinct lecturers |
| Reports.SummaryBounds | CMCS_Part3/Services/ReportService.cs:296-306 | status counts partition the claims; departments ≤ lecturers ≤ claims |
| Reports.DepartmentsWithinLecturers | CMCS_Part3/Services/ReportService.cs:302-306 | each lecturer has one department, so there are never more departments than lecturers |
| Reports.KeyRow | CMCS_Part3/Services/ReportService.cs:39-47 | a key's group is non-empty and its row shows the group's count, total and average |
| Reports.GroupRows | CMCS_Part3/Services/ReportService.cs:37-49 | one row per listed key, in the keys' order |
| Reports.GroupRowsWeights | CMCS_Part3/Services/ReportService.cs:43-44 | the rows' amounts and counts add up to the keys' group weights |
| Reports.GroupRowsAddUp | CMCS_Part3/Services/ReportService.cs:37-49 | rows for all the keys account for every claim and the whole total exactly once |
| Reports.GroupRowsOnePerKey | CMCS_Part3/Services/ReportService.cs:37-49 | rows for all the keys are one per key: each describes its group, every claim's key has a row, no key has two |
| Reports.KeyPosition | CMCS_Part3/Services/ReportService.cs:38 | every claim's key occurs in any reordering of the keys |
| Reports.RowKeys | CMCS_Part3/Services/ReportService.cs:39-47 | each row reads back the key it was built for and describes that key's group |
| Reports.AmountOrder | CMCS_Part3/Services/ReportService.cs:103 | the keys reordered by group total, largest first |
| Reports.AmountOrderedRows | CMCS_Part3/Services/ReportService.cs:103 | rows built in that order are sorted by total amount, descending |
| Reports.MonthOrder | CMCS_Part3/Services/ReportService.cs:48 | the months reordered by period, earliest first |
| Reports.MonthOrderAscending | CMCS_Part3/Services/ReportService.cs:37-48 | the months appear once each, strictly from earliest to latest |
| Reports.MonthlyRowsOnePerMonth | CMCS_Part3/Services/ReportService.cs:37-47 | the monthly rows describe each month of the period's claims once |
| Reports.MonthlyRowsAscending | CMCS_Part3/Services/ReportService.cs:41-48 | every monthly row is titled with its month, and the months run strictly from earliest to latest |
| Reports.LoadedLecturersKnown | CMCS_Part3/Services/ReportService.cs:80-86 | every claim a report loads has its lecturer, so the `c.Lecturer!` reads never fail |
| Reports.GenerateMonthlyClaimsReport | CMCS_Part3/Services/ReportService.cs:18-66 | succeeds with the fixed title and message and the requested dates; the rows are the monthly rows and the summary is over the claims submitted in [from, to] whose lecturer exists |
| Reports.KnownLecturerKeys | CMCS_Part3/Services/ReportService.cs:86 | when every claim's lecturer exists, every grouping key is a known lecturer |
| Reports.LecturerRowsOnePerLecturer | CMCS_Part3/Services/ReportService.cs:85-103 | the lecturer rows describe each lecturer's claims once, highest total first |
| Reports.LecturerRowsNamed | CMCS_Part3/Services/ReportService.cs:86-98 | each lecturer row carries its lecturer's name |
| Reports.GenerateLecturerPerformanceReport | CMCS_Part3/Services/ReportService.cs:68-121 | always succeeds with the fixed title, message and dates; the rows are the lecturer rows and the summary is over the approved in-period claims whose lecturer exists; every row names its lecturer |
| Reports.PaymentLines | CMCS_Part3/Services/ReportService.cs:210-216 | one line per claim of the group, in order, with id, month, amount and approval date |
| Reports.PaymentRowsOnePerLecturer | CMCS_Part3/Services/ReportService.cs:196-219 | the payment rows describe each lecturer's claims once, highest total first |
| Reports.PaymentRowsListClaims | CMCS_Part3/Services/ReportService.cs:205-217 | each payment row lists exactly its lecturer's claims |
| Reports.PaymentRowsNamed | CMCS_Part3/Services/ReportService.cs:197-209 | each payment row carries its lecturer's name |
| Reports.GeneratePaymentSummaryReport | CMCS_Part3/Services/ReportService.cs:178-237 | always succeeds, with the same claims and summary as the lecturer report, the payment rows and its own title and message; every row names its lecturer |
| Reports.LecturerAndPaymentReportsAgree | CMCS_Part3/Services/ReportService.cs:82-103 | over one period the two reports list the same lecturers in the same order with equal counts, totals, averages and names |
| Reports.DepartmentRowsOnePerDepartment | CMCS_Part3/Services/ReportService.cs:140-158 | the department rows describe each non-empty department once, highest total first |
| Reports.DepartmentRowsNamed | CMCS_Part3/Services/ReportService.cs:145-153 | each department row is named after its non-empty department and counts its distinct lecturers |
| Reports.GenerateDepartmentSummaryReport | CMCS_Part3/Services/ReportService.cs:123-176 | succeeds; the rows group the in-period claims whose lecturer has a department; the summary covers every in-period claim with a lecturer |
| Reports.MonthlyRowsAddUp | CMCS_Part3/Services/ReportService.cs:37-52 | the monthly rows' counts and amounts add up to the summary's total claims and total amount |
| Reports.LecturerRowsMatchSummary | CMCS_Part3/Services/ReportService.cs:85-107 | the lecturer report has as many rows as the summary's unique lecturers, and its rows add up to the summary |
| Reports.DepartmentRowsMatchSummary | CMCS_Part3/Services/ReportService.cs:140-162 | as many department rows as the summary's departments; row counts ≤ the summary's total claims; row amounts add up to the department-bearing claims' total |
| Seqs.Filter | CMCS_Part3/Services/ClaimService.cs:58 | `Where` keeps every satisfying element and nothing else, and never lengthens its input |
| Lookup.FirstIndex | CMCS_Part3/Services/StatusService.cs:23-25 | `FirstOrDefault` by key: the position found holds the key and no earlier element does; none iff no element has it (claims by id, documents by stored name, second-revision claims by id) |
| Seqs.FilterUpdateCount | CMCS_Part3/Services/ClaimService.cs:137 | replacing one element changes a filtered count by what leaves and what arrives |
| Seqs.SortBy | CMCS_Part3/Services/ClaimService.cs:59 | `OrderBy` returns a permutation of its input |
| Seqs.SortBySorted | CMCS_Part3/Services/ClaimService.cs:59-67 | `OrderBy`/`OrderByDescending` results are sorted by the key in that direction |
| Seqs.Keys | CMCS_Part3/Services/ReportService.cs:38 | `GroupBy` keys: distinct, and exactly the keys of the elements |
| Seqs.GroupWeightsAddUp | CMCS_Part3/Services/ReportService.cs:37-52 | summing the per-group sums over all keys gives the sum over all elements |
| Seqs.KeysCount | CMCS_Part3/Services/ReportService.cs:302 | there are as many groups as distinct key values |
| Text.GetExtension | CMCS_Part3/Services/FileService.cs:153 | non-empty iff the name ends in a dot followed by at least one character with no dot or separator after it; then it is that suffix |
| Text.ExtensionOfSuffix | CMCS_Part3/Services/ClaimService.cs:168 | a name ending in an extension has exactly that extension |
| Text.ToLowerInvariant | CMCS_Part3/Services/FileService.cs:153 | same length; upper-case ASCII letters lowered, everything else kept |
| Text.Contains | CMCS_Part3/Services/FileService.cs:164 | true iff the part occurs at some position |
| Text.NatToString | CMCS_Part3/Services/FileService.cs:184 | decimal digits with no leading zero, denoting the number |
| Text.IntToStringInjective | CMCS_Part3/Services/FileService.cs:60 | different numbers render differently |

## Left out

- **Exceptions.** Store failures, and the catch blocks that turn them into fixed failure messages,
  are not modelled. Examples are ApprovalService.cs:146-151, StatusService.cs:71-76,
  ClaimService.cs:48-51 and ReportService.cs:58-63. The reports' `c.Lecturer!` reads cannot
  throw, because every claim they load has its lecturer.
- **The lecturer reload.** The reload at ApprovalService.cs:21-27 is not modelled. The model
  assumes the claim handed to validation is the instance the context already tracks. For that
  instance the reload returns the same object. Validation reads the tables directly.
- Approval.AutoApproveClaim: assumes the argument is the tracked instance of a claim with a
  stored key. Two cases fall outside that assumption. A detached claim with a stored key is
  either validated against the reloaded row, or makes `Update` throw on the key conflict, so the
  call returns false. A claim with `Id == 0` is inserted by `Update` and the call returns true,
  while the model leaves the table unchanged and returns false.
- **Disk and randomness.** Writing, creating and deleting files on disk is not modelled. The GUID
  stem (FileService.cs:36) and the yyyyMMddHHmmss stamp (ClaimService.cs:168) are parameters.
- **Clock resolution.** Instants are whole seconds. `DateTime` ticks, and the one-tick end of a
  day at StatusService.cs:169, are modelled at that resolution.
- **Report rendering and persistence.** CSV and HTML generation, Excel and PDF export, "C"
  currency formatting, `SaveReportAsync` and `GetRecentReportsAsync` are not modelled. The
  "MMMM yyyy" month title uses the invariant culture's month names.
- **Floating-point report fields.** `ApprovalRate`, `AverageHours` and `AverageRate` are left out
  of the entity rows. Hours are exact `real`s, not doubles.
- Reports.GenerateLecturerPerformanceReport: does not model that the group key also includes
  name and department, because those are determined by the lecturer id in a consistent table.
- Reports.GeneratePaymentSummaryReport: the same applies to its name and email key parts.
- **Logging and notifications.** `SendStatusNotificationAsync` and `LogStatusHistory` only log,
  and are not modelled.
- **Lower-casing.** `ToLowerInvariant` lowers ASCII letters only; other Unicode case mappings
  are not modelled.
- **Path separators.** `Text.GetExtension` models `Path.GetExtension` with the Windows
  separators: the scan stops at '/' and at '\\'. On Unix only '/' stops it, so "a.b\\c" has the
  extension ".b\\c" there and none here. Such an extension contains '\\', and no supported or
  accepted extension does. So the accept/reject decisions of both upload paths are the same on
  both platforms.
- **Second-revision claim fields.** The second-revision `Claim` class is not part of this model.
  Its shape is inferred from the fields ClaimService.cs reads and writes, plus `Paid`
  (HRController.cs:70). Its lecturer navigation property and the lecturer table are not modelled.
- ClaimServiceRev2.GetPendingClaims, ClaimServiceRev2.GetAllClaims, ClaimServiceRev2.GetClaimById:
  the queries at ClaimService.cs:57, :74 and :125 include the lecturer, so in the source a claim
  whose lecturer row is missing is not returned. The second-revision store has no lecturer table,
  so the model returns every stored claim.
- **Database keys.** Database-generated identity keys are not modelled. The keys are whatever
  the stored rows carry.
- **Out of scope.** Controllers, the JavaScript front end, identity and users, seed data, and
  the ReportServiceTests are not modelled. Those tests call methods of a revision that is not
  part of this model.
