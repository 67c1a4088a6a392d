/**
  The status service (Services/StatusService.cs): direct status changes with their audit
  stamps, the derived two-entry status history, the dashboard overview with its counts and
  amounts, the overdue list, and the seven-day submission trend.

  The clock is a parameter: `now` stands for `DateTime.Now`, and `DateTime.Today` is the
  day `DayOf(now)`.
*/
module Status {
  import opened Wrappers
  import opened Seqs
  import opened ClaimModel
  import opened CmcsDb
  import Approval

  /** `PreviousStatus` and `NewStatus` keep the enum's default (Pending) on the not-found path. */
  datatype StatusUpdateResult = StatusUpdateResult(
    success: bool,
    message: string,
    updatedClaim: Option<Claim>,
    previousStatus: ClaimStatus,
    newStatus: ClaimStatus)

  datatype StatusHistory = StatusHistory(
    claimId: int,
    status: ClaimStatus,
    updatedBy: string,
    updatedAt: Instant,
    notes: string)

  /** One day's submissions by current status; `date` is a day number. */
  datatype StatusTrend = StatusTrend(date: int, pending: nat, approved: nat, rejected: nat)

  datatype StatusOverview = StatusOverview(
    totalClaims: nat,
    pendingCount: nat,
    approvedCount: nat,
    rejectedCount: nat,
    overdueCount: nat,
    pendingAmount: real,
    approvedAmount: real,
    recentTrends: seq<StatusTrend>)

  /**
    The in-place change `UpdateClaimStatusAsync` makes: the new status always; the decision
    stamp only for Approved and Rejected. Moving a claim back to Pending keeps its old stamp.
  */
  function ApplyStatus(claim: Claim, newStatus: ClaimStatus, updatedBy: string,
                       notes: Option<string>, now: Instant): (u: Claim)
    ensures u.status == newStatus
    ensures u.id == claim.id && u.lecturerId == claim.lecturerId && u.submissionDate == claim.submissionDate
    ensures u.hoursWorked == claim.hoursWorked && u.hourlyRate == claim.hourlyRate
    ensures u.claimMonth == claim.claimMonth && u.notes == claim.notes
    ensures newStatus == Pending ==>
      u.approvalDate == claim.approvalDate && u.approvedBy == claim.approvedBy
      && u.rejectionReason == claim.rejectionReason
    ensures newStatus != Pending ==> u.approvalDate == Some(now) && u.approvedBy == Some(updatedBy)
    ensures newStatus == Approved ==> u.rejectionReason == None
    ensures newStatus == Rejected && notes.Some? ==> u.rejectionReason == notes
    ensures newStatus == Rejected && notes.None? ==> u.rejectionReason == Some("No reason provided")
  {
    match newStatus
    case Approved =>
      claim.(status := Approved, approvalDate := Some(now), approvedBy := Some(updatedBy), rejectionReason := None)
    case Rejected =>
      claim.(status := Rejected, approvalDate := Some(now), approvedBy := Some(updatedBy),
             rejectionReason := Some(notes.GetOr("No reason provided")))
    case Pending =>
      claim.(status := Pending)
  }

  /** Setting Approved or Rejected directly stamps the claim exactly as the approval workflow does. */
  lemma ApplyStatusAgreesWithWorkflow(claim: Claim, actor: string, notes: Option<string>, now: Instant)
    ensures ApplyStatus(claim, Approved, actor, notes, now) == Approval.ApproveClaim(claim, actor, now)
    ensures ApplyStatus(claim, Rejected, actor, notes, now) == Approval.RejectClaim(claim, actor, notes, now)
  {
  }

  function UpdatedMessage(previous: ClaimStatus, next: ClaimStatus): string {
    "Claim status updated from " + StatusName(previous) + " to " + StatusName(next)
  }

  /**
    `UpdateClaimStatusAsync`: no transition rule; any status may follow any other. The claim is
    loaded with its lecturer, so one whose lecturer row is missing is not found.
  */
  method UpdateClaimStatus(db: Database, claimId: int, newStatus: ClaimStatus, updatedBy: string,
                           notes: Option<string>, now: Instant)
    returns (result: StatusUpdateResult)
    modifies db`claims
    ensures LecturerClaimIndex(old(db.claims), old(db.lecturers), claimId).None? ==>
      result == StatusUpdateResult(false, "Claim not found", None, Pending, Pending)
      && db.claims == old(db.claims)
    ensures LecturerClaimIndex(old(db.claims), old(db.lecturers), claimId).Some? ==>
      var k := LecturerClaimIndex(old(db.claims), old(db.lecturers), claimId).value;
      var previous := old(db.claims)[k].status;
      var updated := ApplyStatus(old(db.claims)[k], newStatus, updatedBy, notes, now);
      && db.claims == old(db.claims)[k := updated]
      && result == StatusUpdateResult(true, UpdatedMessage(previous, newStatus), Some(updated), previous, newStatus)
  {
    var index := LecturerClaimIndex(db.claims, db.lecturers, claimId);
    if index.None? {
      return StatusUpdateResult(false, "Claim not found", None, Pending, Pending);
    }
    var k := index.value;
    var claim := db.claims[k];
    var previous := claim.status;
    var updated := ApplyStatus(claim, newStatus, updatedBy, notes, now);
    db.claims := db.claims[k := updated];
    result := StatusUpdateResult(true, UpdatedMessage(previous, newStatus), Some(updated), previous, newStatus);
  }

  function UpdatedAtKey(): StatusHistory -> real {
    (h: StatusHistory) => h.updatedAt as real
  }

  /** The entry every claim's history starts from. */
  function SubmittedEntry(claimId: int, claim: Claim): StatusHistory {
    StatusHistory(claimId, Pending, "System", claim.submissionDate, "Claim submitted")
  }

  /**
    The decision entry, for a claim with a decision stamp. Its note reads "Claim approved" only
    when the claim is Approved now; any other current status, Pending included, reads as a
    rejection, with an absent reason rendered as the empty string.
  */
  function DecisionEntry(claimId: int, claim: Claim): StatusHistory
    requires claim.approvalDate.Some?
  {
    StatusHistory(claimId, claim.status, claim.approvedBy.GetOr("Unknown"), claim.approvalDate.value,
                  if claim.status == Approved then "Claim approved"
                  else "Claim rejected: " + claim.rejectionReason.GetOr(""))
  }

  /**
    The history of one loaded claim: the submission entry, the decision entry when the claim has
    a decision stamp, ordered by time (stably, so a tie keeps the submission first).
  */
  function ClaimHistory(claimId: int, claim: Claim): (history: seq<StatusHistory>)
    ensures claim.approvalDate.None? ==> history == [SubmittedEntry(claimId, claim)]
    ensures claim.approvalDate.Some? && claim.approvalDate.value < claim.submissionDate ==>
      history == [DecisionEntry(claimId, claim), SubmittedEntry(claimId, claim)]
    ensures claim.approvalDate.Some? && claim.submissionDate <= claim.approvalDate.value ==>
      history == [SubmittedEntry(claimId, claim), DecisionEntry(claimId, claim)]
    ensures SortedBy(history, UpdatedAtKey(), false)
  {
    var submitted := SubmittedEntry(claimId, claim);
    var entries := [submitted] + (if claim.approvalDate.Some? then [DecisionEntry(claimId, claim)] else []);
    SortBySorted(entries, UpdatedAtKey(), false);
    assert [submitted][..0] == [];
    assert SortBy([submitted], UpdatedAtKey(), false) == [submitted];
    if claim.approvalDate.Some? then
      var decision := DecisionEntry(claimId, claim);
      assert entries[..|entries| - 1] == [submitted];
      assert SortBy(entries, UpdatedAtKey(), false) == InsertBy(decision, [submitted], UpdatedAtKey(), false);
      assert [submitted][1..] == [];
      SortBy(entries, UpdatedAtKey(), false)
    else
      SortBy(entries, UpdatedAtKey(), false)
  }

  /**
    `GetStatusHistoryAsync`: the history is derived from the claim's fields, not stored. The
    claim is loaded with its lecturer, so one whose lecturer row is missing has no history.
  */
  function GetStatusHistory(claims: seq<Claim>, lecturers: seq<Lecturer>, claimId: int): (history: seq<StatusHistory>)
    ensures FindClaimWithLecturer(claims, lecturers, claimId).None? ==> history == []
    ensures FindClaimWithLecturer(claims, lecturers, claimId).Some? ==>
      history == ClaimHistory(claimId, FindClaimWithLecturer(claims, lecturers, claimId).value)
    ensures SortedBy(history, UpdatedAtKey(), false)
  {
    match FindClaimWithLecturer(claims, lecturers, claimId)
    case None => []
    case Some(claim) => ClaimHistory(claimId, claim)
  }

  /** A Rejected claim set back to Pending still shows a rejection note, now under status Pending. */
  lemma PendingResetHistory(claims: seq<Claim>, lecturers: seq<Lecturer>, k: nat, actor: string, now: Instant)
    requires k < |claims| && claims[k].status == Rejected && claims[k].approvalDate.Some?
    requires FindLecturer(lecturers, claims[k].lecturerId).Some?
    requires claims[k].submissionDate <= claims[k].approvalDate.value
    requires forall j :: 0 <= j < |claims| && j != k ==> claims[j].id != claims[k].id
    ensures var reset := claims[k := ApplyStatus(claims[k], Pending, actor, None, now)];
      var history := GetStatusHistory(reset, lecturers, claims[k].id);
      |history| == 2 && history[1].status == Pending
      && history[1].notes == "Claim rejected: " + claims[k].rejectionReason.GetOr("")
  {
    var reset := claims[k := ApplyStatus(claims[k], Pending, actor, None, now)];
    assert reset[k].id == claims[k].id;
    assert LecturerClaimIndex(reset, lecturers, claims[k].id) == Some(k);
  }

  function OverdueAt(now: Instant): Claim -> bool {
    (c: Claim) => IsOverdue(c, now)
  }

  function SubmissionKey(): Claim -> real {
    (c: Claim) => c.submissionDate as real
  }

  /**
    `GetOverdueClaimsAsync`: every overdue claim whose lecturer row exists, each as often as
    stored, oldest submission first.
  */
  function GetOverdueClaims(claims: seq<Claim>, lecturers: seq<Lecturer>, now: Instant): (overdue: seq<Claim>)
    ensures forall c ::
      multiset(overdue)[c] == if IsOverdue(c, now) && FindLecturer(lecturers, c.lecturerId).Some? then multiset(claims)[c] else 0
    ensures forall i :: 0 <= i < |overdue| ==> overdue[i].status == Pending
    ensures SortedBy(overdue, SubmissionKey(), false)
  {
    var found := Filter(ClaimsWithLecturer(claims, lecturers), OverdueAt(now));
    forall c ensures multiset(found)[c] ==
      if IsOverdue(c, now) && FindLecturer(lecturers, c.lecturerId).Some? then multiset(claims)[c] else 0
    {
      OverdueMultiplicity(claims, lecturers, now, c);
    }
    SortBySorted(found, SubmissionKey(), false);
    var r := SortBy(found, SubmissionKey(), false);
    assert forall i :: 0 <= i < |r| ==> r[i] in multiset(found);
    r
  }

  /** The overdue claims loaded with their lecturer keep each such claim as often as it is stored. */
  lemma OverdueMultiplicity(claims: seq<Claim>, lecturers: seq<Lecturer>, now: Instant, c: Claim)
    ensures multiset(Filter(ClaimsWithLecturer(claims, lecturers), OverdueAt(now)))[c] ==
      if IsOverdue(c, now) && FindLecturer(lecturers, c.lecturerId).Some? then multiset(claims)[c] else 0
  {
    FilterMultiset(ClaimsWithLecturer(claims, lecturers), OverdueAt(now), c);
    FilterMultiset(claims, HasLecturer(lecturers), c);
  }

  /** An overdue claim is a Pending one, so there are never more overdue than pending claims. */
  lemma {:induction false} OverdueWithinPending(claims: seq<Claim>, now: Instant)
    ensures |Filter(claims, OverdueAt(now))| <= |Filter(claims, IsPending)|
    decreases |claims|
  {
    if claims != [] {
      OverdueWithinPending(claims[..|claims| - 1], now);
    }
  }

  /** Claims carrying the declared ranges sum to a non-negative amount. */
  lemma {:induction false} AmountNonNegative(claims: seq<Claim>)
    requires forall i :: 0 <= i < |claims| ==> DeclaredRangesHold(claims[i])
    ensures Sum(claims, TotalAmount) >= 0.0
    decreases |claims|
  {
    if claims != [] {
      var last := claims[|claims| - 1];
      AmountNonNegative(claims[..|claims| - 1]);
      TotalAmountBounds(last, 1.0, 200.0, 100.0, 1000.0);
    }
  }

  /** The claims submitted on day `date`. */
  function SubmittedOn(date: int): Claim -> bool {
    (c: Claim) => DayOf(c.submissionDate) == date
  }

  /** A trend bucket over the claims of one day. */
  function Bucket(date: int, day: seq<Claim>): (t: StatusTrend)
    ensures t.date == date
    ensures t.pending + t.approved + t.rejected == |day|
  {
    StatusCountsPartition(day);
    StatusTrend(date, |Filter(day, IsPending)|, |Filter(day, IsApproved)|, |Filter(day, IsRejected)|)
  }

  /** A day's trend bucket, stated with calendar days. */
  function TrendFor(claims: seq<Claim>, date: int): (t: StatusTrend)
    ensures t.date == date
    ensures t.pending + t.approved + t.rejected == |Filter(claims, SubmittedOn(date))|
  {
    Bucket(date, Filter(claims, SubmittedOn(date)))
  }

  /** Filtering by two predicates that agree on every element gives the same result. */
  lemma {:induction false} FilterSameOn<T>(s: seq<T>, p: T -> bool, q: T -> bool)
    requires forall i :: 0 <= i < |s| ==> p(s[i]) == q(s[i])
    ensures Filter(s, p) == Filter(s, q)
    decreases |s|
  {
    if s != [] {
      FilterSameOn(s[..|s| - 1], p, q);
    }
  }

  /** The window from the day's first second to the next day's first second, less one, is exactly that day. */
  lemma DayWindow(claims: seq<Claim>, date: int)
    ensures Filter(claims, SubmittedBetween(date * SecondsPerDay, date * SecondsPerDay + SecondsPerDay - 1))
         == Filter(claims, SubmittedOn(date))
  {
    var lo := date * SecondsPerDay;
    forall i | 0 <= i < |claims|
      ensures SubmittedBetween(lo, lo + SecondsPerDay - 1)(claims[i]) == SubmittedOn(date)(claims[i])
    {
      var t := claims[i].submissionDate;
      var d := t / SecondsPerDay;
      assert d * SecondsPerDay <= t < d * SecondsPerDay + SecondsPerDay;
    }
    FilterSameOn(claims, SubmittedBetween(lo, lo + SecondsPerDay - 1), SubmittedOn(date));
  }

  /** Counting a day's window by status gives that day's trend bucket. */
  lemma WindowTrend(claims: seq<Claim>, date: int, dayStart: Instant, dayEnd: Instant)
    requires dayStart == date * SecondsPerDay && dayEnd == dayStart + SecondsPerDay - 1
    ensures Bucket(date, Filter(claims, SubmittedBetween(dayStart, dayEnd))) == TrendFor(claims, date)
  {
    var window := Filter(claims, SubmittedBetween(dayStart, dayEnd));
    var day := Filter(claims, SubmittedOn(date));
    DayWindow(claims, date);
    assert window == day;
    assert TrendFor(claims, date) == Bucket(date, day);
  }

  /** One pass of the trend loop: the claims of the day's window, counted by status. */
  method CountDay(claims: seq<Claim>, date: int) returns (bucket: StatusTrend)
    ensures bucket == TrendFor(claims, date)
  {
    var dayStart := date * SecondsPerDay;
    var dayEnd := dayStart + SecondsPerDay - 1;
    var daysClaims := Filter(claims, SubmittedBetween(dayStart, dayEnd));
    bucket := StatusTrend(date, |Filter(daysClaims, IsPending)|, |Filter(daysClaims, IsApproved)|,
                          |Filter(daysClaims, IsRejected)|);
    WindowTrend(claims, date, dayStart, dayEnd);
    assert bucket == Bucket(date, daysClaims);
  }

  /** `GetRecentStatusTrends`: one bucket per day, oldest first, ending today. */
  method GetRecentStatusTrends(db: Database, now: Instant) returns (trends: seq<StatusTrend>)
    ensures |trends| == 7
    ensures forall k :: 0 <= k < 7 ==> trends[k] == TrendFor(db.claims, DayOf(now) - 6 + k)
  {
    var claims := db.claims;
    var today := DayOf(now);
    trends := [];
    var i := 6;
    while i >= 0
      invariant -1 <= i <= 6
      invariant |trends| == 6 - i
      invariant forall k :: 0 <= k < |trends| ==> trends[k] == TrendFor(claims, today - 6 + k)
    {
      var bucket := CountDay(claims, today - i);
      trends := trends + [bucket];
      i := i - 1;
    }
  }

  /** `GetStatusOverviewAsync`: the counts and amounts over all claims, then the trend. */
  method GetStatusOverview(db: Database, now: Instant) returns (overview: StatusOverview)
    ensures overview.totalClaims == |db.claims|
    ensures overview.pendingCount == |Filter(db.claims, IsPending)|
    ensures overview.approvedCount == |Filter(db.claims, IsApproved)|
    ensures overview.rejectedCount == |Filter(db.claims, IsRejected)|
    ensures overview.overdueCount == |Filter(db.claims, OverdueAt(now))|
    ensures overview.pendingAmount == Sum(Filter(db.claims, IsPending), TotalAmount)
    ensures overview.approvedAmount == Sum(Filter(db.claims, IsApproved), TotalAmount)
    ensures overview.pendingCount + overview.approvedCount + overview.rejectedCount == overview.totalClaims
    ensures overview.overdueCount <= overview.pendingCount
    ensures (forall i :: 0 <= i < |db.claims| ==> DeclaredRangesHold(db.claims[i])) ==>
      overview.pendingAmount >= 0.0 && overview.approvedAmount >= 0.0
    ensures |overview.recentTrends| == 7
    ensures forall k :: 0 <= k < 7 ==> overview.recentTrends[k] == TrendFor(db.claims, DayOf(now) - 6 + k)
  {
    var claims := db.claims;
    StatusCountsPartition(claims);
    OverdueWithinPending(claims, now);
    var pending := Filter(claims, IsPending);
    var approved := Filter(claims, IsApproved);
    if forall i :: 0 <= i < |claims| ==> DeclaredRangesHold(claims[i]) {
      forall i | 0 <= i < |pending| ensures DeclaredRangesHold(pending[i]) {
        assert pending[i] in claims;
      }
      forall i | 0 <= i < |approved| ensures DeclaredRangesHold(approved[i]) {
        assert approved[i] in claims;
      }
      AmountNonNegative(pending);
      AmountNonNegative(approved);
    }
    var trends := GetRecentStatusTrends(db, now);
    overview := StatusOverview(|claims|, |pending|, |approved|, |Filter(claims, IsRejected)|,
                               |Filter(claims, OverdueAt(now))|, Sum(pending, TotalAmount),
                               Sum(approved, TotalAmount), trends);
  }

  /** `GetClaimStatusAsync`: an unknown claim reads as Pending. */
  function GetClaimStatus(claims: seq<Claim>, claimId: int): (status: ClaimStatus)
    ensures ClaimIndex(claims, claimId).Some? ==> status == claims[ClaimIndex(claims, claimId).value].status
    ensures (forall k :: 0 <= k < |claims| ==> claims[k].id != claimId) ==> status == Pending
  {
    match FindClaim(claims, claimId)
    case Some(c) => c.status
    case None => Pending
  }
}
