/**
  The claim entity of the CMCS application (Models/Claim.cs) together with the two
  entities it refers to (Lecturer, SupportingDocument) and the clock arithmetic its
  computed properties rely on.
*/
module ClaimModel {
  import opened Wrappers
  import opened Seqs

  /** A point in time: whole seconds on the application's local clock. */
  type Instant = int

  const SecondsPerDay: int := 86400

  /** The day number an instant falls in; day `d` covers `[d * SecondsPerDay, (d + 1) * SecondsPerDay)`. */
  function DayOf(t: Instant): int {
    t / SecondsPerDay
  }

  /** `(to - from).Days`: the whole days in the span, truncated toward zero as `TimeSpan.Days` is. */
  function WholeDays(from: Instant, to: Instant): (d: int)
    ensures to >= from ==> 0 <= d && d * SecondsPerDay <= to - from < (d + 1) * SecondsPerDay
    ensures to < from ==> d <= 0 && (d - 1) * SecondsPerDay < to - from <= d * SecondsPerDay
  {
    var span := to - from;
    if span >= 0 then span / SecondsPerDay else -((-span) / SecondsPerDay)
  }

  datatype ClaimStatus = Pending | Approved | Rejected

  /** The enum member's name, as string interpolation renders it. */
  function StatusName(s: ClaimStatus): string {
    match s
    case Pending => "Pending"
    case Approved => "Approved"
    case Rejected => "Rejected"
  }

  datatype Lecturer = Lecturer(
    id: int,
    name: string,
    email: string,
    phoneNumber: Option<string>,
    department: Option<string>,
    createdDate: Instant,
    isActive: bool)

  /** A row of the supporting-documents table; `claimId` is its foreign key. */
  datatype SupportingDocument = SupportingDocument(
    fileName: string,
    storedFileName: string,
    fileSize: int,
    fileType: string,
    uploadDate: Instant,
    description: Option<string>,
    claimId: int)

  /**
    A claim as stored. The navigation properties are not fields: the lecturer is looked up
    by `lecturerId` and the supporting documents are the document rows whose `claimId` is
    this claim's `id` (see CmcsDb).
  */
  datatype Claim = Claim(
    id: int,
    submissionDate: Instant,
    claimMonth: string,
    hoursWorked: real,
    hourlyRate: real,
    notes: Option<string>,
    status: ClaimStatus,
    approvalDate: Option<Instant>,
    approvedBy: Option<string>,
    rejectionReason: Option<string>,
    lecturerId: int)

  /** The computed `TotalAmount`: hours times rate, exactly (never stored). */
  function TotalAmount(c: Claim): real {
    c.hoursWorked * c.hourlyRate
  }

  /** The computed `DaysPending` at the instant `now`. */
  function DaysPending(c: Claim, now: Instant): (d: int)
    ensures now >= c.submissionDate ==>
      0 <= d && d * SecondsPerDay <= now - c.submissionDate < (d + 1) * SecondsPerDay
    ensures now < c.submissionDate ==> d <= 0
  {
    WholeDays(c.submissionDate, now)
  }

  /** The computed `IsOverdue` at the instant `now`. */
  predicate IsOverdue(c: Claim, now: Instant) {
    DaysPending(c, now) > 30 && c.status == Pending
  }

  predicate IsPending(c: Claim) { c.status == Pending }
  predicate IsApproved(c: Claim) { c.status == Approved }
  predicate IsRejected(c: Claim) { c.status == Rejected }

  /** The claims submitted in the closed window `[from, to]`. */
  function SubmittedBetween(from: Instant, to: Instant): Claim -> bool {
    (c: Claim) => from <= c.submissionDate <= to
  }

  /** The data-annotation ranges declared on the entity. */
  predicate DeclaredRangesHold(c: Claim) {
    && 1.0 <= c.hoursWorked <= 200.0
    && 100.0 <= c.hourlyRate <= 1000.0
    && (c.notes.Some? ==> |c.notes.value| <= 500)
  }

  /** A claim as `new Claim { ... }` creates it at the instant `now`: every default in place. */
  function NewClaim(id: int, lecturerId: int, claimMonth: string, hoursWorked: real,
                    hourlyRate: real, notes: Option<string>, now: Instant): (c: Claim)
    ensures c.status == Pending && c.submissionDate == now
    ensures c.approvalDate == None && c.approvedBy == None && c.rejectionReason == None
    ensures DaysPending(c, now) == 0 && !IsOverdue(c, now)
    ensures TotalAmount(c) == hoursWorked * hourlyRate
  {
    Claim(id, now, claimMonth, hoursWorked, hourlyRate, notes, Pending, None, None, None, lecturerId)
  }

  /** A claim is overdue exactly when it is Pending and at least 31 full days old. */
  lemma IsOverdueExactly(c: Claim, now: Instant)
    ensures IsOverdue(c, now) <==> c.status == Pending && now - c.submissionDate >= 31 * SecondsPerDay
  {
    var d := DaysPending(c, now);
    if now - c.submissionDate >= 31 * SecondsPerDay {
      assert d >= 31;
    }
  }

  /** Within the ranges an operand may take, the total lies between the products of the bounds. */
  lemma {:induction false} TotalAmountBounds(c: Claim, hLo: real, hHi: real, rLo: real, rHi: real)
    requires 0.0 <= hLo <= c.hoursWorked <= hHi
    requires 0.0 <= rLo <= c.hourlyRate <= rHi
    ensures hLo * rLo <= TotalAmount(c) <= hHi * rHi
  {
    var h, r := c.hoursWorked, c.hourlyRate;
    calc {
      hLo * rLo;
    <= { MulMono(hLo, h, rLo); }
      h * rLo;
    <= { MulMono(rLo, r, h); }
      TotalAmount(c);
    }
    calc {
      TotalAmount(c);
    <= { MulMono(h, hHi, r); }
      hHi * r;
    <= { MulMono(r, rHi, hHi); }
      hHi * rHi;
    }
  }

  /** Multiplying by a non-negative factor keeps the order, on either side. */
  lemma MulMono(x: real, y: real, d: real)
    requires x <= y && 0.0 <= d
    ensures x * d <= y * d && d * x <= d * y
  {
    assert y * d - x * d == (y - x) * d;
  }

  /** The three statuses partition any claim list. */
  lemma {:induction false} StatusCountsPartition(s: seq<Claim>)
    ensures |Filter(s, IsPending)| + |Filter(s, IsApproved)| + |Filter(s, IsRejected)| == |s|
    decreases |s|
  {
    if s != [] {
      StatusCountsPartition(s[..|s| - 1]);
    }
  }
}
