/**
  The aggregation behind the four reports of Services/ReportService.cs: the summary every
  report carries and the grouping and ordering of the report rows. Rendering (CSV, HTML,
  currency formatting) and persistence are not part of this module.

  A `GroupBy(...).Select(...).OrderBy(...)` pipeline is modelled by ordering the group keys
  and building one row per key. Each row is a function of its key alone, and LINQ's ordering
  is stable, so ordering the keys by the value the rows are ordered by yields the same rows
  in the same order.
*/
module Reports {
  import opened Wrappers
  import opened Seqs
  import opened Text
  import opened ClaimModel
  import opened CmcsDb

  // ---------------------------------------------------------------------------
  // The calendar month of an instant (instant 0 is midnight, 1 January 1970)

  datatype YearMonth = YearMonth(year: int, month: int)

  predicate IsLeapYear(year: int) {
    year % 4 == 0 && (year % 100 != 0 || year % 400 == 0)
  }

  function DaysInYear(year: int): int {
    if IsLeapYear(year) then 366 else 365
  }

  function DaysInMonth(year: int, month: int): int {
    if month == 2 then (if IsLeapYear(year) then 29 else 28)
    else if month == 4 || month == 6 || month == 9 || month == 11 then 30
    else 31
  }

  /** The year that day `offset` of `year` falls in (counting from its 1 January), and the day within that year. */
  function CivilYear(year: int, offset: int): (r: (int, int))
    ensures 0 <= r.1 < DaysInYear(r.0)
    decreases if offset >= 0 then offset else 366 - offset
  {
    if offset < 0 then CivilYear(year - 1, offset + DaysInYear(year - 1))
    else if offset < DaysInYear(year) then (year, offset)
    else CivilYear(year + 1, offset - DaysInYear(year))
  }

  /** The month that day `dayOfYear` of `year` falls in, searching from `month` on. */
  function CivilMonth(year: int, dayOfYear: int, month: int): (m: int)
    requires 1 <= month <= 12
    ensures month <= m <= 12
    decreases 12 - month
  {
    if month == 12 || dayOfYear < DaysInMonth(year, month) then month
    else CivilMonth(year, dayOfYear - DaysInMonth(year, month), month + 1)
  }

  /** `DateTime.Year` and `DateTime.Month` of a day number. */
  function YearMonthOf(day: int): (ym: YearMonth)
    ensures 1 <= ym.month <= 12
  {
    var (year, dayOfYear) := CivilYear(1970, day);
    YearMonth(year, CivilMonth(year, dayOfYear, 1))
  }

  lemma CalendarExamples()
    ensures YearMonthOf(0) == YearMonth(1970, 1)
    ensures YearMonthOf(31) == YearMonth(1970, 2)
    ensures YearMonthOf(58) == YearMonth(1970, 2) && YearMonthOf(59) == YearMonth(1970, 3)
    ensures YearMonthOf(-1) == YearMonth(1969, 12)
  {
  }

  /** The month a claim was submitted in: the key of the monthly report's `GroupBy`. */
  function MonthOf(c: Claim): (ym: YearMonth)
    ensures 1 <= ym.month <= 12
  {
    YearMonthOf(DayOf(c.submissionDate))
  }

  /** `a` is a calendar month before `b`. */
  predicate EarlierMonth(a: YearMonth, b: YearMonth) {
    a.year < b.year || (a.year == b.year && a.month < b.month)
  }

  /** The months since the start of year 0, which orders months as the first of each month does. */
  function PeriodIndex(ym: YearMonth): real {
    (ym.year * 12 + ym.month - 1) as real
  }

  function PeriodKey(): YearMonth -> real {
    (ym: YearMonth) => PeriodIndex(ym)
  }

  /** Between proper months, the period index orders exactly as the calendar does. */
  lemma PeriodIndexOrders(a: YearMonth, b: YearMonth)
    requires 1 <= a.month <= 12 && 1 <= b.month <= 12
    ensures PeriodIndex(a) < PeriodIndex(b) <==> EarlierMonth(a, b)
    ensures PeriodIndex(a) == PeriodIndex(b) <==> a == b
  {
  }

  const MonthNames: seq<string> := ["January", "February", "March", "April", "May", "June", "July",
                                    "August", "September", "October", "November", "December"]

  /** Left-pads with zeros to at least `width` characters. */
  function ZeroPad(s: string, width: nat): (r: string)
    ensures |r| >= width && |r| >= |s|
    decreases width - |s|
  {
    if |s| >= width then s else ZeroPad("0" + s, width)
  }

  /** The "MMMM yyyy" rendering of a month with the invariant culture's month names. */
  function MonthTitle(ym: YearMonth): string {
    if 1 <= ym.month <= 12 then MonthNames[ym.month - 1] + " " + ZeroPad(IntToString(ym.year), 4)
    else ""
  }

  /** A title is the month's full name, a space, and the year padded to at least four digits. */
  lemma MonthTitleParts(ym: YearMonth)
    requires 1 <= ym.month <= 12
    ensures var name := MonthNames[ym.month - 1]; var title := MonthTitle(ym);
      && |title| >= |name| + 5
      && title[..|name|] == name && title[|name|] == ' '
      && title[|name| + 1..] == ZeroPad(IntToString(ym.year), 4)
  {
    var name := MonthNames[ym.month - 1];
    var year := ZeroPad(IntToString(ym.year), 4);
    assert MonthTitle(ym) == name + " " + year;
    assert (name + " " + year)[|name| + 1..] == year;
  }

  lemma MonthTitleExamples()
    ensures MonthTitle(YearMonth(2024, 3)) == "March" + " " + "2024"
    ensures MonthTitle(YearMonth(987, 12)) == "December" + " " + "0987"
  {
    YearText2024();
    YearText987();
  }

  lemma YearText2024()
    ensures ZeroPad(IntToString(2024), 4) == "2024"
  {
    assert NatToString(2) == "2";
    assert NatToString(20) == NatToString(2) + "0";
    assert NatToString(202) == NatToString(20) + "2";
    assert NatToString(2024) == NatToString(202) + "4";
  }

  lemma YearText987()
    ensures ZeroPad(IntToString(987), 4) == "0987"
  {
    assert NatToString(9) == "9";
    assert NatToString(98) == NatToString(9) + "8";
    assert NatToString(987) == NatToString(98) + "7";
    assert ZeroPad("987", 4) == ZeroPad("0" + "987", 4);
  }

  // ---------------------------------------------------------------------------
  // Result shapes

  /** One claim of a payment row. */
  datatype PaymentLine = PaymentLine(claimId: int, month: string, amount: real, approvalDate: Option<Instant>)

  /** The anonymous object a report row carries, by report. */
  datatype Entity =
    | NoEntity
    | LecturerStats(lecturerId: int, lecturerName: string, department: Option<string>)
    | DepartmentStats(departmentName: string, lecturerCount: nat)
    | Payments(lecturerId: int, lecturerName: string, email: string, claims: seq<PaymentLine>)

  datatype ReportDataItem = ReportDataItem(
    category: string,
    subCategory: string,
    claimCount: nat,
    totalAmount: real,
    averageAmount: real,
    period: Option<YearMonth>,
    entity: Entity)

  datatype ReportSummary = ReportSummary(
    totalClaims: nat,
    totalAmount: real,
    approvedClaims: nat,
    pendingClaims: nat,
    rejectedClaims: nat,
    averageClaimAmount: real,
    uniqueLecturers: nat,
    departmentsCount: nat)

  datatype ReportType = MonthlyClaims | LecturerPerformance | DepartmentSummary | PaymentSummary

  datatype ReportResult = ReportResult(
    success: bool,
    message: string,
    reportTitle: string,
    reportType: ReportType,
    fromDate: Instant,
    toDate: Instant,
    data: seq<ReportDataItem>,
    summary: ReportSummary)

  // ---------------------------------------------------------------------------
  // Lecturers and departments

  /** The department of the lecturer with key `lecturerId`; empty when there is no such lecturer or no department. */
  function DepartmentOfLecturer(lecturers: seq<Lecturer>, lecturerId: int): string {
    match FindLecturer(lecturers, lecturerId)
    case None => ""
    case Some(l) => l.department.GetOr("")
  }

  function DepartmentKey(lecturers: seq<Lecturer>): Claim -> string {
    (c: Claim) => DepartmentOfLecturer(lecturers, c.lecturerId)
  }

  /** The claim's lecturer exists and has a non-empty department. */
  function HasDepartment(lecturers: seq<Lecturer>): Claim -> bool {
    (c: Claim) => DepartmentOfLecturer(lecturers, c.lecturerId) != ""
  }

  function LecturerKey(): Claim -> int {
    (c: Claim) => c.lecturerId
  }

  /** The department of a lecturer id, as the department report's key reads it. */
  function LecturerDepartment(lecturers: seq<Lecturer>): int -> string {
    (id: int) => DepartmentOfLecturer(lecturers, id)
  }

  /** The distinct lecturer ids of the claims. */
  function LecturerIds(claims: seq<Claim>): set<int> {
    Image(Elements(claims), LecturerKey())
  }

  /** The distinct non-empty departments of the claims' lecturers. */
  function Departments(claims: seq<Claim>, lecturers: seq<Lecturer>): set<string> {
    Image(Elements(Filter(claims, HasDepartment(lecturers))), DepartmentKey(lecturers))
  }

  // ---------------------------------------------------------------------------
  // The summary

  /** `CalculateSummary`: the counts, sums and distinct counts over the report's claims. */
  function CalculateSummary(claims: seq<Claim>, lecturers: seq<Lecturer>): (r: ReportSummary)
    ensures r.totalClaims == |claims| && r.totalAmount == Sum(claims, TotalAmount)
    ensures r.approvedClaims == |Filter(claims, IsApproved)|
    ensures r.pendingClaims == |Filter(claims, IsPending)|
    ensures r.rejectedClaims == |Filter(claims, IsRejected)|
    ensures r.approvedClaims + r.pendingClaims + r.rejectedClaims == r.totalClaims
    ensures r.totalClaims == 0 ==> r.averageClaimAmount == 0.0
    ensures r.totalClaims > 0 ==> r.averageClaimAmount == r.totalAmount / r.totalClaims as real
    ensures r.uniqueLecturers == |LecturerIds(claims)| <= r.totalClaims
    ensures r.departmentsCount == |Departments(claims, lecturers)| <= r.uniqueLecturers
  {
    SummaryBounds(claims, lecturers);
    var total := Sum(claims, TotalAmount);
    ReportSummary(
      |claims|,
      total,
      |Filter(claims, IsApproved)|,
      |Filter(claims, IsPending)|,
      |Filter(claims, IsRejected)|,
      if |claims| > 0 then total / |claims| as real else 0.0,
      |LecturerIds(claims)|,
      |Departments(claims, lecturers)|)
  }

  /** The counting facts the summary rests on. */
  lemma SummaryBounds(claims: seq<Claim>, lecturers: seq<Lecturer>)
    ensures |Filter(claims, IsApproved)| + |Filter(claims, IsPending)| + |Filter(claims, IsRejected)| == |claims|
    ensures |Departments(claims, lecturers)| <= |LecturerIds(claims)| <= |claims|
  {
    StatusCountsPartition(claims);
    ImageOfSetBound(Elements(claims), LecturerKey());
    ElementsBound(claims);
    DepartmentsWithinLecturers(claims, lecturers);
  }

  /** A lecturer has one department, so there are never more departments than lecturers. */
  lemma DepartmentsWithinLecturers(claims: seq<Claim>, lecturers: seq<Lecturer>)
    ensures |Departments(claims, lecturers)| <= |LecturerIds(claims)|
  {
    var ids := LecturerIds(claims);
    var image := Image(ids, LecturerDepartment(lecturers));
    forall d | d in Departments(claims, lecturers) ensures d in image {
      var c :| c in Elements(Filter(claims, HasDepartment(lecturers))) && DepartmentKey(lecturers)(c) == d;
      assert c in Elements(claims);
      assert LecturerKey()(c) in ids;
    }
    SubsetBound(Departments(claims, lecturers), image);
    ImageOfSetBound(ids, LecturerDepartment(lecturers));
  }

  // ---------------------------------------------------------------------------
  // Grouped rows

  /** What a group row shows about its claims: their count, their total and its average. */
  predicate RowDescribes(row: ReportDataItem, group: seq<Claim>) {
    && row.claimCount == |group|
    && row.totalAmount == Sum(group, TotalAmount)
    && (|group| > 0 ==> row.averageAmount == row.totalAmount / |group| as real)
  }

  /** The report-specific part of a row. */
  datatype Label = Label(category: string, subCategory: string, period: Option<YearMonth>, entity: Entity)

  /** The claims with key `k`: one group of a `GroupBy`. */
  function GroupOf<K(==)>(claims: seq<Claim>, key: Claim -> K, k: K): seq<Claim> {
    Filter(claims, HasKey(key, k))
  }

  /** The row of the group with key `k`; a key of the claims has a non-empty group. */
  function KeyRow<K(==,!new)>(claims: seq<Claim>, key: Claim -> K, describe: (K, seq<Claim>) -> Label, k: K)
    : (row: ReportDataItem)
    requires k in Keys(claims, key)
    ensures GroupOf(claims, key, k) != [] && RowDescribes(row, GroupOf(claims, key, k))
    ensures row.category == describe(k, GroupOf(claims, key, k)).category
    ensures row.subCategory == describe(k, GroupOf(claims, key, k)).subCategory
    ensures row.period == describe(k, GroupOf(claims, key, k)).period
    ensures row.entity == describe(k, GroupOf(claims, key, k)).entity
  {
    var group := GroupOf(claims, key, k);
    var i :| 0 <= i < |claims| && key(claims[i]) == k;
    assert claims[i] in group;
    var d := describe(k, group);
    var total := Sum(group, TotalAmount);
    ReportDataItem(d.category, d.subCategory, |group|, total, total / |group| as real, d.period, d.entity)
  }

  /** One row per key of `ks`, in the order of `ks`. */
  function GroupRows<K(==,!new)>(claims: seq<Claim>, key: Claim -> K, ks: seq<K>, describe: (K, seq<Claim>) -> Label)
    : (rows: seq<ReportDataItem>)
    requires forall k :: k in ks ==> k in Keys(claims, key)
    ensures |rows| == |ks|
    ensures forall i :: 0 <= i < |ks| ==> rows[i] == KeyRow(claims, key, describe, ks[i])
    decreases |ks|
  {
    if ks == [] then []
    else GroupRows(claims, key, ks[..|ks| - 1], describe) + [KeyRow(claims, key, describe, ks[|ks| - 1])]
  }

  function RowCount(): ReportDataItem -> real {
    (row: ReportDataItem) => row.claimCount as real
  }

  function RowAmount(): ReportDataItem -> real {
    (row: ReportDataItem) => row.totalAmount
  }

  /** The rows' counts and amounts are the group weights of their keys. */
  lemma {:induction false} GroupRowsWeights<K(!new)>(claims: seq<Claim>, key: Claim -> K, ks: seq<K>, describe: (K, seq<Claim>) -> Label)
    requires forall k :: k in ks ==> k in Keys(claims, key)
    ensures Sum(GroupRows(claims, key, ks, describe), RowAmount()) == Sum(ks, GroupWeight(claims, key, TotalAmount))
    ensures Sum(GroupRows(claims, key, ks, describe), RowCount()) == Sum(ks, GroupWeight(claims, key, One()))
    decreases |ks|
  {
    if ks != [] {
      var init, k := ks[..|ks| - 1], ks[|ks| - 1];
      GroupRowsWeights(claims, key, init, describe);
      var rows := GroupRows(claims, key, ks, describe);
      assert rows[..|rows| - 1] == GroupRows(claims, key, init, describe);
      SumOfOnes(GroupOf(claims, key, k));
    }
  }

  /** Rows for a reordering of all the keys account for every claim, and for the whole total, exactly once. */
  lemma GroupRowsAddUp<K(!new)>(claims: seq<Claim>, key: Claim -> K, ks: seq<K>, describe: (K, seq<Claim>) -> Label)
    requires multiset(ks) == multiset(Keys(claims, key))
    ensures forall k :: k in ks ==> k in Keys(claims, key)
    ensures Sum(GroupRows(claims, key, ks, describe), RowAmount()) == Sum(claims, TotalAmount)
    ensures Sum(GroupRows(claims, key, ks, describe), RowCount()) == |claims| as real
  {
    assert forall k :: k in ks ==> k in multiset(Keys(claims, key));
    GroupRowsWeights(claims, key, ks, describe);
    SumOfPermutation(ks, Keys(claims, key), GroupWeight(claims, key, TotalAmount));
    SumOfPermutation(ks, Keys(claims, key), GroupWeight(claims, key, One()));
    GroupWeightsAddUp(claims, key, TotalAmount);
    GroupWeightsAddUp(claims, key, One());
    SumOfOnes(claims);
  }

  /**
    `rows` has one row per key occurring in `claims`: every row summarises exactly the claims
    with its key, every key has a row, and no key has two.
  */
  predicate OneRowPerKey<K(==)>(rows: seq<ReportDataItem>, claims: seq<Claim>, key: Claim -> K, rowKey: ReportDataItem -> K) {
    RowsSummariseGroups(rows, claims, key, rowKey) && RowsCoverClaims(rows, claims, key, rowKey) && RowKeysDistinct(rows, rowKey)
  }

  /** Every row summarises exactly the claims with its key. */
  predicate RowsSummariseGroups<K(==)>(rows: seq<ReportDataItem>, claims: seq<Claim>, key: Claim -> K, rowKey: ReportDataItem -> K) {
    forall i :: 0 <= i < |rows| ==> RowDescribes(rows[i], GroupOf(claims, key, rowKey(rows[i])))
  }

  /** Every claim's key has a row. */
  predicate RowsCoverClaims<K(==)>(rows: seq<ReportDataItem>, claims: seq<Claim>, key: Claim -> K, rowKey: ReportDataItem -> K) {
    forall c :: c in claims ==> exists i :: 0 <= i < |rows| && rowKey(rows[i]) == key(c)
  }

  /** No key has two rows. */
  predicate RowKeysDistinct<K(==)>(rows: seq<ReportDataItem>, rowKey: ReportDataItem -> K) {
    forall i, j :: 0 <= i < j < |rows| ==> rowKey(rows[i]) != rowKey(rows[j])
  }

  /** Rows built for a reordering of all the keys, whose keys can be read back, are one per key. */
  lemma GroupRowsOnePerKey<K(!new)>(claims: seq<Claim>, key: Claim -> K, ks: seq<K>, describe: (K, seq<Claim>) -> Label,
                                    rowKey: ReportDataItem -> K)
    requires multiset(ks) == multiset(Keys(claims, key))
    requires forall k :: k in Keys(claims, key) ==> rowKey(KeyRow(claims, key, describe, k)) == k
    ensures forall k :: k in ks ==> k in Keys(claims, key)
    ensures OneRowPerKey(GroupRows(claims, key, ks, describe), claims, key, rowKey)
  {
    RowsHaveDistinctKeys(claims, key, ks, describe, rowKey);
    RowsDescribeGroups(claims, key, ks, describe, rowKey);
    RowsCoverAllClaims(claims, key, ks, describe, rowKey);
  }

  /** Every row summarises exactly the claims with its key. */
  lemma RowsDescribeGroups<K(!new)>(claims: seq<Claim>, key: Claim -> K, ks: seq<K>, describe: (K, seq<Claim>) -> Label,
                                    rowKey: ReportDataItem -> K)
    requires forall k :: k in ks ==> k in Keys(claims, key)
    requires forall k :: k in Keys(claims, key) ==> rowKey(KeyRow(claims, key, describe, k)) == k
    ensures RowsSummariseGroups(GroupRows(claims, key, ks, describe), claims, key, rowKey)
  {
    RowKeys(claims, key, ks, describe, rowKey);
  }

  /** Every claim's key has a row. */
  lemma RowsCoverAllClaims<K(!new)>(claims: seq<Claim>, key: Claim -> K, ks: seq<K>, describe: (K, seq<Claim>) -> Label,
                                    rowKey: ReportDataItem -> K)
    requires multiset(ks) == multiset(Keys(claims, key))
    requires forall k :: k in ks ==> k in Keys(claims, key)
    requires forall k :: k in Keys(claims, key) ==> rowKey(KeyRow(claims, key, describe, k)) == k
    ensures RowsCoverClaims(GroupRows(claims, key, ks, describe), claims, key, rowKey)
  {
    var rows := GroupRows(claims, key, ks, describe);
    forall c | c in claims ensures exists i :: 0 <= i < |rows| && rowKey(rows[i]) == key(c) {
      var i := RowOfClaim(claims, key, ks, describe, rowKey, c);
    }
  }

  /** The row that holds a given claim. */
  lemma RowOfClaim<K(!new)>(claims: seq<Claim>, key: Claim -> K, ks: seq<K>, describe: (K, seq<Claim>) -> Label,
                            rowKey: ReportDataItem -> K, c: Claim) returns (i: nat)
    requires multiset(ks) == multiset(Keys(claims, key)) && c in claims
    requires forall k :: k in ks ==> k in Keys(claims, key)
    requires forall k :: k in Keys(claims, key) ==> rowKey(KeyRow(claims, key, describe, k)) == k
    ensures i < |GroupRows(claims, key, ks, describe)| && rowKey(GroupRows(claims, key, ks, describe)[i]) == key(c)
  {
    i := KeyPosition(claims, key, ks, c);
    assert GroupRows(claims, key, ks, describe)[i] == KeyRow(claims, key, describe, ks[i]);
  }

  /** No two rows have the same key. */
  lemma RowsHaveDistinctKeys<K(!new)>(claims: seq<Claim>, key: Claim -> K, ks: seq<K>, describe: (K, seq<Claim>) -> Label,
                                      rowKey: ReportDataItem -> K)
    requires multiset(ks) == multiset(Keys(claims, key))
    requires forall k :: k in Keys(claims, key) ==> rowKey(KeyRow(claims, key, describe, k)) == k
    ensures forall k :: k in ks ==> k in Keys(claims, key)
    ensures RowKeysDistinct(GroupRows(claims, key, ks, describe), rowKey)
  {
    SameMembers(ks, Keys(claims, key));
    RowKeys(claims, key, ks, describe, rowKey);
    DistinctPermutation(Keys(claims, key), ks);
  }

  /** Where the key of a claim sits in a reordering of all the keys. */
  lemma KeyPosition<K(!new)>(claims: seq<Claim>, key: Claim -> K, ks: seq<K>, c: Claim) returns (i: nat)
    requires multiset(ks) == multiset(Keys(claims, key)) && c in claims
    ensures i < |ks| && ks[i] == key(c)
  {
    var j :| 0 <= j < |claims| && claims[j] == c;
    assert key(claims[j]) in Keys(claims, key);
    SameMembers(ks, Keys(claims, key));
    i :| 0 <= i < |ks| && ks[i] == key(c);
  }

  /** Each row's key reads back as the key it was built for. */
  lemma RowKeys<K(!new)>(claims: seq<Claim>, key: Claim -> K, ks: seq<K>, describe: (K, seq<Claim>) -> Label,
                         rowKey: ReportDataItem -> K)
    requires forall k :: k in ks ==> k in Keys(claims, key)
    requires forall k :: k in Keys(claims, key) ==> rowKey(KeyRow(claims, key, describe, k)) == k
    ensures forall i :: 0 <= i < |ks| ==> rowKey(GroupRows(claims, key, ks, describe)[i]) == ks[i]
    ensures forall i :: 0 <= i < |ks| ==>
      RowDescribes(GroupRows(claims, key, ks, describe)[i], GroupOf(claims, key, ks[i]))
  {
  }

  // ---------------------------------------------------------------------------
  // Orderings of the group keys

  /** The keys ordered by their groups' total amount, largest first: `OrderByDescending(d => d.TotalAmount)`. */
  function AmountOrder<K(==,!new)>(claims: seq<Claim>, key: Claim -> K): (ks: seq<K>)
    ensures multiset(ks) == multiset(Keys(claims, key))
    ensures forall k :: k in ks ==> k in Keys(claims, key)
    ensures SortedBy(ks, GroupWeight(claims, key, TotalAmount), true)
  {
    SortBySorted(Keys(claims, key), GroupWeight(claims, key, TotalAmount), true);
    SameMembers(SortBy(Keys(claims, key), GroupWeight(claims, key, TotalAmount), true), Keys(claims, key));
    SortBy(Keys(claims, key), GroupWeight(claims, key, TotalAmount), true)
  }

  /** Rows built in amount order are sorted by their total amount, largest first. */
  lemma AmountOrderedRows<K(!new)>(claims: seq<Claim>, key: Claim -> K, describe: (K, seq<Claim>) -> Label)
    ensures forall k :: k in AmountOrder(claims, key) ==> k in Keys(claims, key)
    ensures SortedBy(GroupRows(claims, key, AmountOrder(claims, key), describe), RowAmount(), true)
  {
    var ks := AmountOrder(claims, key);
    var rows := GroupRows(claims, key, ks, describe);
    forall i | 0 <= i < |ks| ensures RowAmount()(rows[i]) == GroupWeight(claims, key, TotalAmount)(ks[i]) {
      RowAmountAt(claims, key, ks, describe, i);
    }
    SortedByImage(rows, ks, RowAmount(), GroupWeight(claims, key, TotalAmount), true);
  }

  /** A row's amount is its key's group weight. */
  lemma RowAmountAt<K(!new)>(claims: seq<Claim>, key: Claim -> K, ks: seq<K>, describe: (K, seq<Claim>) -> Label, i: nat)
    requires forall k :: k in ks ==> k in Keys(claims, key)
    requires i < |ks|
    ensures RowAmount()(GroupRows(claims, key, ks, describe)[i]) == GroupWeight(claims, key, TotalAmount)(ks[i])
  {
    var row := KeyRow(claims, key, describe, ks[i]);
    assert GroupRows(claims, key, ks, describe)[i] == row;
    assert row.totalAmount == Sum(GroupOf(claims, key, ks[i]), TotalAmount);
  }

  /** The months ordered by period, earliest first: `OrderBy(d => d.Period)`. */
  function MonthOrder(claims: seq<Claim>): (ks: seq<YearMonth>)
    ensures multiset(ks) == multiset(Keys(claims, MonthOf))
    ensures forall k :: k in ks ==> k in Keys(claims, MonthOf)
    ensures SortedBy(ks, PeriodKey(), false)
  {
    SortBySorted(Keys(claims, MonthOf), PeriodKey(), false);
    SameMembers(SortBy(Keys(claims, MonthOf), PeriodKey(), false), Keys(claims, MonthOf));
    SortBy(Keys(claims, MonthOf), PeriodKey(), false)
  }

  /** The months in month order are proper months, each once, earliest first. */
  lemma MonthOrderAscending(claims: seq<Claim>)
    ensures forall i, j :: 0 <= i < j < |MonthOrder(claims)| ==> EarlierMonth(MonthOrder(claims)[i], MonthOrder(claims)[j])
  {
    var ks := MonthOrder(claims);
    SameMembers(ks, Keys(claims, MonthOf));
    DistinctPermutation(Keys(claims, MonthOf), ks);
    forall i | 0 <= i < |ks| ensures 1 <= ks[i].month <= 12 {
      assert ks[i] in Keys(claims, MonthOf);
      var j :| 0 <= j < |claims| && MonthOf(claims[j]) == ks[i];
    }
    forall i, j | 0 <= i < j < |ks| ensures EarlierMonth(ks[i], ks[j]) {
      PeriodIndexOrders(ks[i], ks[j]);
    }
  }

  // ---------------------------------------------------------------------------
  // The four reports

  /** The claims submitted between `fromDate` and `toDate`, both included. */
  function InPeriod(claims: seq<Claim>, fromDate: Instant, toDate: Instant): seq<Claim> {
    Filter(claims, SubmittedBetween(fromDate, toDate))
  }

  /**
    The claims submitted in the period, as every report query loads them: with their lecturer,
    so a claim whose lecturer row is missing is not among them.
  */
  function WithLecturerInPeriod(claims: seq<Claim>, lecturers: seq<Lecturer>, fromDate: Instant, toDate: Instant): seq<Claim> {
    InPeriod(ClaimsWithLecturer(claims, lecturers), fromDate, toDate)
  }

  /** The approved claims of the period, loaded with their lecturer. */
  function ApprovedInPeriod(claims: seq<Claim>, lecturers: seq<Lecturer>, fromDate: Instant, toDate: Instant): seq<Claim> {
    Filter(WithLecturerInPeriod(claims, lecturers, fromDate, toDate), IsApproved)
  }

  /** Every claim's lecturer exists, so reading its name cannot fail. */
  predicate LecturersKnown(lecturers: seq<Lecturer>, claims: seq<Claim>) {
    forall c :: c in claims ==> FindLecturer(lecturers, c.lecturerId).Some?
  }

  /** The claims a report loads all have their lecturer, so the `c.Lecturer!` reads never fail. */
  lemma LoadedLecturersKnown(claims: seq<Claim>, lecturers: seq<Lecturer>, fromDate: Instant, toDate: Instant)
    ensures LecturersKnown(lecturers, WithLecturerInPeriod(claims, lecturers, fromDate, toDate))
    ensures LecturersKnown(lecturers, ApprovedInPeriod(claims, lecturers, fromDate, toDate))
  {
    var joined := ClaimsWithLecturer(claims, lecturers);
    var loaded := WithLecturerInPeriod(claims, lecturers, fromDate, toDate);
    forall c | c in loaded ensures FindLecturer(lecturers, c.lecturerId).Some? {
      var i :| 0 <= i < |loaded| && loaded[i] == c;
      assert c in joined;
    }
    var approved := ApprovedInPeriod(claims, lecturers, fromDate, toDate);
    forall c | c in approved ensures FindLecturer(lecturers, c.lecturerId).Some? {
      var i :| 0 <= i < |approved| && approved[i] == c;
      assert c in loaded;
    }
  }

  function MonthlyDescribe(): (YearMonth, seq<Claim>) -> Label {
    (ym: YearMonth, group: seq<Claim>) => Label("Monthly Claims", MonthTitle(ym), Some(ym), NoEntity)
  }

  /** The month a monthly row is about. */
  function RowMonth(): ReportDataItem -> YearMonth {
    (row: ReportDataItem) => row.period.GetOr(YearMonth(0, 0))
  }

  /** The monthly rows: one per month of `claims`, earliest first. */
  function MonthlyRows(claims: seq<Claim>): seq<ReportDataItem> {
    GroupRows(claims, MonthOf, MonthOrder(claims), MonthlyDescribe())
  }

  /** The monthly rows summarise each month of the claims once. */
  lemma MonthlyRowsOnePerMonth(claims: seq<Claim>)
    ensures OneRowPerKey(MonthlyRows(claims), claims, MonthOf, RowMonth())
  {
    GroupRowsOnePerKey(claims, MonthOf, MonthOrder(claims), MonthlyDescribe(), RowMonth());
  }

  /** Each monthly row is titled with its month, and the months run strictly from earliest to latest. */
  lemma MonthlyRowsAscending(claims: seq<Claim>)
    ensures forall i :: 0 <= i < |MonthlyRows(claims)| ==>
      && MonthlyRows(claims)[i].category == "Monthly Claims" && MonthlyRows(claims)[i].period.Some?
      && MonthlyRows(claims)[i].subCategory == MonthTitle(RowMonth()(MonthlyRows(claims)[i]))
    ensures forall i, j :: 0 <= i < j < |MonthlyRows(claims)| ==>
      EarlierMonth(RowMonth()(MonthlyRows(claims)[i]), RowMonth()(MonthlyRows(claims)[j]))
  {
    var ks := MonthOrder(claims);
    SameMembers(ks, Keys(claims, MonthOf));
    MonthOrderAscending(claims);
    var rows := MonthlyRows(claims);
    assert forall i :: 0 <= i < |rows| ==> RowMonth()(rows[i]) == ks[i];
  }

  /**
    `GenerateMonthlyClaimsReportAsync`: one row per month of the period's claims, earliest first.
    The query includes the lecturer, so claims whose lecturer row is missing are not counted.
  */
  function GenerateMonthlyClaimsReport(s: Snapshot, fromDate: Instant, toDate: Instant): (r: ReportResult)
    ensures r.success && r.message == "Monthly claims report generated successfully"
    ensures r.reportTitle == "Monthly Claims Report" && r.reportType == MonthlyClaims
    ensures r.fromDate == fromDate && r.toDate == toDate
    ensures r.summary == CalculateSummary(WithLecturerInPeriod(s.claims, s.lecturers, fromDate, toDate), s.lecturers)
    ensures r.data == MonthlyRows(WithLecturerInPeriod(s.claims, s.lecturers, fromDate, toDate))
  {
    var claims := WithLecturerInPeriod(s.claims, s.lecturers, fromDate, toDate);
    ReportResult(true, "Monthly claims report generated successfully", "Monthly Claims Report", MonthlyClaims,
                 fromDate, toDate, MonthlyRows(claims), CalculateSummary(claims, s.lecturers))
  }

  /** The lecturer a lecturer or payment row is about. */
  function RowLecturer(): ReportDataItem -> int {
    (row: ReportDataItem) => if row.entity.LecturerStats? || row.entity.Payments? then row.entity.lecturerId else 0
  }

  function LecturerDescribe(lecturers: seq<Lecturer>): (int, seq<Claim>) -> Label {
    (id: int, group: seq<Claim>) =>
      match FindLecturer(lecturers, id)
      case Some(l) => Label("Lecturer Performance", l.name, None, LecturerStats(id, l.name, l.department))
      case None => Label("Lecturer Performance", "Unknown Lecturer", None, LecturerStats(id, "", None))
  }

  /** A row names the lecturer it is about, as the lecturer table records them. */
  predicate NamesLecturer(row: ReportDataItem, lecturers: seq<Lecturer>) {
    && FindLecturer(lecturers, RowLecturer()(row)).Some?
    && row.subCategory == FindLecturer(lecturers, RowLecturer()(row)).value.name
  }

  /** Every key of claims whose lecturers exist is the id of an existing lecturer. */
  lemma KnownLecturerKeys(lecturers: seq<Lecturer>, claims: seq<Claim>)
    requires LecturersKnown(lecturers, claims)
    ensures forall k :: k in Keys(claims, LecturerKey()) ==> FindLecturer(lecturers, k).Some?
  {
    forall k | k in Keys(claims, LecturerKey()) ensures FindLecturer(lecturers, k).Some? {
      var i :| 0 <= i < |claims| && LecturerKey()(claims[i]) == k;
      assert claims[i] in claims;
    }
  }

  /** The lecturer rows: one per lecturer of `claims`, highest total first. */
  function LecturerRows(claims: seq<Claim>, lecturers: seq<Lecturer>): seq<ReportDataItem> {
    GroupRows(claims, LecturerKey(), AmountOrder(claims, LecturerKey()), LecturerDescribe(lecturers))
  }

  /** The lecturer rows summarise each lecturer's claims once, highest total first. */
  lemma LecturerRowsOnePerLecturer(claims: seq<Claim>, lecturers: seq<Lecturer>)
    ensures OneRowPerKey(LecturerRows(claims, lecturers), claims, LecturerKey(), RowLecturer())
    ensures SortedBy(LecturerRows(claims, lecturers), RowAmount(), true)
  {
    GroupRowsOnePerKey(claims, LecturerKey(), AmountOrder(claims, LecturerKey()), LecturerDescribe(lecturers), RowLecturer());
    AmountOrderedRows(claims, LecturerKey(), LecturerDescribe(lecturers));
  }

  /** When every lecturer exists, each lecturer row carries that lecturer's name. */
  lemma LecturerRowsNamed(claims: seq<Claim>, lecturers: seq<Lecturer>)
    requires LecturersKnown(lecturers, claims)
    ensures forall i :: 0 <= i < |LecturerRows(claims, lecturers)| ==>
      && LecturerRows(claims, lecturers)[i].entity.LecturerStats?
      && NamesLecturer(LecturerRows(claims, lecturers)[i], lecturers)
  {
    KnownLecturerKeys(lecturers, claims);
    var ks := AmountOrder(claims, LecturerKey());
    forall i | 0 <= i < |ks|
      ensures LecturerRows(claims, lecturers)[i].entity.LecturerStats?
      ensures NamesLecturer(LecturerRows(claims, lecturers)[i], lecturers)
    {
      LecturerRowAt(claims, lecturers, ks, i);
    }
  }

  /** The row built for a known lecturer is a lecturer row carrying that lecturer's name. */
  lemma LecturerRowAt(claims: seq<Claim>, lecturers: seq<Lecturer>, ks: seq<int>, i: nat)
    requires forall k :: k in ks ==> k in Keys(claims, LecturerKey()) && FindLecturer(lecturers, k).Some?
    requires i < |ks|
    ensures var row := GroupRows(claims, LecturerKey(), ks, LecturerDescribe(lecturers))[i];
      row.entity.LecturerStats? && NamesLecturer(row, lecturers)
  {
    var row := GroupRows(claims, LecturerKey(), ks, LecturerDescribe(lecturers))[i];
    var group := GroupOf(claims, LecturerKey(), ks[i]);
    var l := FindLecturer(lecturers, ks[i]).value;
    assert row == KeyRow(claims, LecturerKey(), LecturerDescribe(lecturers), ks[i]);
    assert row.entity == LecturerStats(ks[i], l.name, l.department);
    assert row.subCategory == l.name;
  }

  /**
    `GenerateLecturerPerformanceReportAsync`: the period's approved claims, one row per
    lecturer. The query loads every claim with its lecturer, so each row carries a name.
  */
  function GenerateLecturerPerformanceReport(s: Snapshot, fromDate: Instant, toDate: Instant): (r: ReportResult)
    ensures r.success && r.message == "Lecturer performance report generated successfully"
    ensures r.reportTitle == "Lecturer Performance Report" && r.reportType == LecturerPerformance
    ensures r.fromDate == fromDate && r.toDate == toDate
    ensures r.summary == CalculateSummary(ApprovedInPeriod(s.claims, s.lecturers, fromDate, toDate), s.lecturers)
    ensures r.data == LecturerRows(ApprovedInPeriod(s.claims, s.lecturers, fromDate, toDate), s.lecturers)
    ensures forall i :: 0 <= i < |r.data| ==> r.data[i].entity.LecturerStats? && NamesLecturer(r.data[i], s.lecturers)
  {
    var claims := ApprovedInPeriod(s.claims, s.lecturers, fromDate, toDate);
    LoadedLecturersKnown(s.claims, s.lecturers, fromDate, toDate);
    LecturerRowsNamed(claims, s.lecturers);
    ReportResult(true, "Lecturer performance report generated successfully", "Lecturer Performance Report",
                 LecturerPerformance, fromDate, toDate, LecturerRows(claims, s.lecturers), CalculateSummary(claims, s.lecturers))
  }

  /** The claims of one payment row, in the group's order. */
  function PaymentLines(group: seq<Claim>): (lines: seq<PaymentLine>)
    ensures |lines| == |group|
    ensures forall i :: 0 <= i < |group| ==>
      lines[i] == PaymentLine(group[i].id, group[i].claimMonth, TotalAmount(group[i]), group[i].approvalDate)
  {
    seq(|group|, i requires 0 <= i < |group| => PaymentLine(group[i].id, group[i].claimMonth, TotalAmount(group[i]), group[i].approvalDate))
  }

  function PaymentDescribe(lecturers: seq<Lecturer>): (int, seq<Claim>) -> Label {
    (id: int, group: seq<Claim>) =>
      match FindLecturer(lecturers, id)
      case Some(l) => Label("Payment Summary", l.name, None, Payments(id, l.name, l.email, PaymentLines(group)))
      case None => Label("Payment Summary", "Unknown Lecturer", None, Payments(id, "", "", PaymentLines(group)))
  }

  /** The payment rows: one per lecturer of `claims`, highest total first, listing their claims. */
  function PaymentRows(claims: seq<Claim>, lecturers: seq<Lecturer>): seq<ReportDataItem> {
    GroupRows(claims, LecturerKey(), AmountOrder(claims, LecturerKey()), PaymentDescribe(lecturers))
  }

  /** The payment rows summarise each lecturer's claims once, highest total first. */
  lemma PaymentRowsOnePerLecturer(claims: seq<Claim>, lecturers: seq<Lecturer>)
    ensures OneRowPerKey(PaymentRows(claims, lecturers), claims, LecturerKey(), RowLecturer())
    ensures SortedBy(PaymentRows(claims, lecturers), RowAmount(), true)
  {
    GroupRowsOnePerKey(claims, LecturerKey(), AmountOrder(claims, LecturerKey()), PaymentDescribe(lecturers), RowLecturer());
    AmountOrderedRows(claims, LecturerKey(), PaymentDescribe(lecturers));
  }

  /** Each payment row lists exactly the claims of its lecturer, in their order. */
  lemma PaymentRowsListClaims(claims: seq<Claim>, lecturers: seq<Lecturer>)
    ensures forall i :: 0 <= i < |PaymentRows(claims, lecturers)| ==>
      && PaymentRows(claims, lecturers)[i].entity.Payments?
      && PaymentRows(claims, lecturers)[i].entity.claims
         == PaymentLines(GroupOf(claims, LecturerKey(), RowLecturer()(PaymentRows(claims, lecturers)[i])))
  {
    var ks := AmountOrder(claims, LecturerKey());
    var rows := PaymentRows(claims, lecturers);
    forall i | 0 <= i < |rows|
      ensures rows[i].entity.Payments? && rows[i].entity.claims == PaymentLines(GroupOf(claims, LecturerKey(), RowLecturer()(rows[i])))
    {
      var group := GroupOf(claims, LecturerKey(), ks[i]);
      assert rows[i].entity == PaymentDescribe(lecturers)(ks[i], group).entity;
    }
  }

  /** When every lecturer exists, each payment row carries that lecturer's name. */
  lemma PaymentRowsNamed(claims: seq<Claim>, lecturers: seq<Lecturer>)
    requires LecturersKnown(lecturers, claims)
    ensures forall i :: 0 <= i < |PaymentRows(claims, lecturers)| ==> NamesLecturer(PaymentRows(claims, lecturers)[i], lecturers)
  {
    KnownLecturerKeys(lecturers, claims);
    var ks := AmountOrder(claims, LecturerKey());
    forall i | 0 <= i < |ks|
      ensures NamesLecturer(PaymentRows(claims, lecturers)[i], lecturers)
    {
      PaymentRowAt(claims, lecturers, ks, i);
    }
  }

  /** The row built for a known lecturer is a payment row carrying that lecturer's name. */
  lemma PaymentRowAt(claims: seq<Claim>, lecturers: seq<Lecturer>, ks: seq<int>, i: nat)
    requires forall k :: k in ks ==> k in Keys(claims, LecturerKey()) && FindLecturer(lecturers, k).Some?
    requires i < |ks|
    ensures var row := GroupRows(claims, LecturerKey(), ks, PaymentDescribe(lecturers))[i];
      row.entity.Payments? && NamesLecturer(row, lecturers)
  {
    var row := GroupRows(claims, LecturerKey(), ks, PaymentDescribe(lecturers))[i];
    var group := GroupOf(claims, LecturerKey(), ks[i]);
    var l := FindLecturer(lecturers, ks[i]).value;
    assert row == KeyRow(claims, LecturerKey(), PaymentDescribe(lecturers), ks[i]);
    assert row.entity == Payments(ks[i], l.name, l.email, PaymentLines(group));
    assert row.subCategory == l.name;
  }

  /**
    `GeneratePaymentSummaryReportAsync`: the period's approved claims, one row per lecturer
    listing that lecturer's claims. As in the lecturer report, each row carries a name.
  */
  function GeneratePaymentSummaryReport(s: Snapshot, fromDate: Instant, toDate: Instant): (r: ReportResult)
    ensures r.success && r.message == "Payment summary report generated successfully"
    ensures r.reportTitle == "Payment Summary Report" && r.reportType == PaymentSummary
    ensures r.fromDate == fromDate && r.toDate == toDate
    ensures r.summary == CalculateSummary(ApprovedInPeriod(s.claims, s.lecturers, fromDate, toDate), s.lecturers)
    ensures r.data == PaymentRows(ApprovedInPeriod(s.claims, s.lecturers, fromDate, toDate), s.lecturers)
    ensures forall i :: 0 <= i < |r.data| ==> NamesLecturer(r.data[i], s.lecturers)
  {
    var claims := ApprovedInPeriod(s.claims, s.lecturers, fromDate, toDate);
    LoadedLecturersKnown(s.claims, s.lecturers, fromDate, toDate);
    PaymentRowsNamed(claims, s.lecturers);
    ReportResult(true, "Payment summary report generated successfully", "Payment Summary Report",
                 PaymentSummary, fromDate, toDate, PaymentRows(claims, s.lecturers), CalculateSummary(claims, s.lecturers))
  }

  /**
    The lecturer performance and payment summary reports of the same period list the same
    lecturers in the same order with the same counts, totals and names.
  */
  lemma LecturerAndPaymentReportsAgree(s: Snapshot, fromDate: Instant, toDate: Instant)
    ensures GenerateLecturerPerformanceReport(s, fromDate, toDate).success == GeneratePaymentSummaryReport(s, fromDate, toDate).success
    ensures GenerateLecturerPerformanceReport(s, fromDate, toDate).summary == GeneratePaymentSummaryReport(s, fromDate, toDate).summary
    ensures |GenerateLecturerPerformanceReport(s, fromDate, toDate).data| == |GeneratePaymentSummaryReport(s, fromDate, toDate).data|
    ensures forall i :: 0 <= i < |GenerateLecturerPerformanceReport(s, fromDate, toDate).data| ==>
      SameLecturerRow(GenerateLecturerPerformanceReport(s, fromDate, toDate).data[i], GeneratePaymentSummaryReport(s, fromDate, toDate).data[i])
  {
    var claims := ApprovedInPeriod(s.claims, s.lecturers, fromDate, toDate);
    var ks := AmountOrder(claims, LecturerKey());
    var a, b := LecturerRows(claims, s.lecturers), PaymentRows(claims, s.lecturers);
    forall i | 0 <= i < |ks| ensures SameLecturerRow(a[i], b[i]) {
      SameLecturerRowAt(claims, s.lecturers, i);
    }
  }

  /** The two reports' rows at one position are about the same lecturer and the same claims. */
  lemma SameLecturerRowAt(claims: seq<Claim>, lecturers: seq<Lecturer>, i: nat)
    requires i < |AmountOrder(claims, LecturerKey())|
    ensures |LecturerRows(claims, lecturers)| == |PaymentRows(claims, lecturers)| == |AmountOrder(claims, LecturerKey())|
    ensures SameLecturerRow(LecturerRows(claims, lecturers)[i], PaymentRows(claims, lecturers)[i])
  {
    var ks := AmountOrder(claims, LecturerKey());
    var k := ks[i];
    var a := KeyRow(claims, LecturerKey(), LecturerDescribe(lecturers), k);
    var b := KeyRow(claims, LecturerKey(), PaymentDescribe(lecturers), k);
    assert LecturerRows(claims, lecturers)[i] == a;
    assert PaymentRows(claims, lecturers)[i] == b;
    assert RowLecturer()(a) == k == RowLecturer()(b);
  }

  /** Two rows about the same lecturer, their claims, their total and their name. */
  predicate SameLecturerRow(a: ReportDataItem, b: ReportDataItem) {
    && RowLecturer()(a) == RowLecturer()(b)
    && a.subCategory == b.subCategory
    && a.claimCount == b.claimCount
    && a.totalAmount == b.totalAmount
    && a.averageAmount == b.averageAmount
  }

  function DepartmentDescribe(): (string, seq<Claim>) -> Label {
    (department: string, group: seq<Claim>) =>
      Label("Department Summary", department, None, DepartmentStats(department, |LecturerIds(group)|))
  }

  /** The department a department row is about. */
  function RowDepartment(): ReportDataItem -> string {
    (row: ReportDataItem) => if row.entity.DepartmentStats? then row.entity.departmentName else ""
  }

  /** The claims whose lecturer has a department. */
  function WithDepartment(claims: seq<Claim>, lecturers: seq<Lecturer>): seq<Claim> {
    Filter(claims, HasDepartment(lecturers))
  }

  /** The department rows: one per department of the claims' lecturers, highest total first. */
  function DepartmentRows(claims: seq<Claim>, lecturers: seq<Lecturer>): seq<ReportDataItem> {
    var grouped := WithDepartment(claims, lecturers);
    GroupRows(grouped, DepartmentKey(lecturers), AmountOrder(grouped, DepartmentKey(lecturers)), DepartmentDescribe())
  }

  /** The department rows summarise once each department that has a lecturer with a claim, highest total first. */
  lemma DepartmentRowsOnePerDepartment(claims: seq<Claim>, lecturers: seq<Lecturer>)
    ensures OneRowPerKey(DepartmentRows(claims, lecturers), WithDepartment(claims, lecturers), DepartmentKey(lecturers), RowDepartment())
    ensures SortedBy(DepartmentRows(claims, lecturers), RowAmount(), true)
  {
    var grouped := WithDepartment(claims, lecturers);
    var key := DepartmentKey(lecturers);
    GroupRowsOnePerKey(grouped, key, AmountOrder(grouped, key), DepartmentDescribe(), RowDepartment());
    AmountOrderedRows(grouped, key, DepartmentDescribe());
  }

  /** Only claims with a department are grouped, so no department key is empty. */
  lemma DepartmentKeysNonEmpty(claims: seq<Claim>, lecturers: seq<Lecturer>)
    ensures forall k :: k in Keys(WithDepartment(claims, lecturers), DepartmentKey(lecturers)) ==> k != ""
  {
    var grouped := WithDepartment(claims, lecturers);
    var key := DepartmentKey(lecturers);
    forall k | k in Keys(grouped, key) ensures k != "" {
      var i :| 0 <= i < |grouped| && key(grouped[i]) == k;
      assert grouped[i] in grouped;
    }
  }

  /** The row built for a non-empty department has the shape a department row should have. */
  lemma DepartmentRowAt(grouped: seq<Claim>, lecturers: seq<Lecturer>, ks: seq<string>, i: nat)
    requires forall k :: k in ks ==> k in Keys(grouped, DepartmentKey(lecturers)) && k != ""
    requires i < |ks|
    ensures DepartmentRowShape(GroupRows(grouped, DepartmentKey(lecturers), ks, DepartmentDescribe())[i], grouped, lecturers)
  {
    var key := DepartmentKey(lecturers);
    var row := GroupRows(grouped, key, ks, DepartmentDescribe())[i];
    var group := GroupOf(grouped, key, ks[i]);
    assert row == KeyRow(grouped, key, DepartmentDescribe(), ks[i]);
    assert row.entity == DepartmentStats(ks[i], |LecturerIds(group)|);
    assert row.subCategory == ks[i];
  }

  /** Each department row is named after its department, never the empty one, and counts its distinct lecturers. */
  lemma DepartmentRowsNamed(claims: seq<Claim>, lecturers: seq<Lecturer>)
    ensures forall i :: 0 <= i < |DepartmentRows(claims, lecturers)| ==>
      DepartmentRowShape(DepartmentRows(claims, lecturers)[i], WithDepartment(claims, lecturers), lecturers)
  {
    var grouped := WithDepartment(claims, lecturers);
    var ks := AmountOrder(grouped, DepartmentKey(lecturers));
    DepartmentKeysNonEmpty(claims, lecturers);
    forall i | 0 <= i < |ks|
      ensures DepartmentRowShape(DepartmentRows(claims, lecturers)[i], grouped, lecturers)
    {
      DepartmentRowAt(grouped, lecturers, ks, i);
    }
  }

  /** A department row is named after its (non-empty) department and counts the distinct lecturers of its claims. */
  predicate DepartmentRowShape(row: ReportDataItem, grouped: seq<Claim>, lecturers: seq<Lecturer>) {
    && row.entity.DepartmentStats?
    && row.subCategory == row.entity.departmentName != ""
    && row.entity.lecturerCount == |LecturerIds(GroupOf(grouped, DepartmentKey(lecturers), row.entity.departmentName))|
  }

  /**
    `GenerateDepartmentSummaryReportAsync`: the period's claims whose lecturer exists; the rows
    group those whose lecturer has a department.
  */
  function GenerateDepartmentSummaryReport(s: Snapshot, fromDate: Instant, toDate: Instant): (r: ReportResult)
    ensures r.success && r.message == "Department summary report generated successfully"
    ensures r.reportTitle == "Department Summary Report" && r.reportType == DepartmentSummary
    ensures r.fromDate == fromDate && r.toDate == toDate
    ensures r.summary == CalculateSummary(WithLecturerInPeriod(s.claims, s.lecturers, fromDate, toDate), s.lecturers)
    ensures r.data == DepartmentRows(WithLecturerInPeriod(s.claims, s.lecturers, fromDate, toDate), s.lecturers)
  {
    var claims := WithLecturerInPeriod(s.claims, s.lecturers, fromDate, toDate);
    ReportResult(true, "Department summary report generated successfully", "Department Summary Report",
                 DepartmentSummary, fromDate, toDate, DepartmentRows(claims, s.lecturers), CalculateSummary(claims, s.lecturers))
  }

  // ---------------------------------------------------------------------------
  // How the rows relate to the summary

  /** The monthly rows account for every claim of the period and for its whole total. */
  lemma MonthlyRowsAddUp(s: Snapshot, fromDate: Instant, toDate: Instant)
    ensures Sum(GenerateMonthlyClaimsReport(s, fromDate, toDate).data, RowCount())
            == GenerateMonthlyClaimsReport(s, fromDate, toDate).summary.totalClaims as real
    ensures Sum(GenerateMonthlyClaimsReport(s, fromDate, toDate).data, RowAmount())
            == GenerateMonthlyClaimsReport(s, fromDate, toDate).summary.totalAmount
  {
    var claims := WithLecturerInPeriod(s.claims, s.lecturers, fromDate, toDate);
    GroupRowsAddUp(claims, MonthOf, MonthOrder(claims), MonthlyDescribe());
  }

  /** The lecturer report has one row per distinct lecturer counted by its summary, and its rows add up to the summary. */
  lemma LecturerRowsMatchSummary(s: Snapshot, fromDate: Instant, toDate: Instant)
    ensures |GenerateLecturerPerformanceReport(s, fromDate, toDate).data|
            == GenerateLecturerPerformanceReport(s, fromDate, toDate).summary.uniqueLecturers
    ensures Sum(GenerateLecturerPerformanceReport(s, fromDate, toDate).data, RowAmount())
            == GenerateLecturerPerformanceReport(s, fromDate, toDate).summary.totalAmount
    ensures Sum(GenerateLecturerPerformanceReport(s, fromDate, toDate).data, RowCount())
            == GenerateLecturerPerformanceReport(s, fromDate, toDate).summary.totalClaims as real
  {
    var claims := ApprovedInPeriod(s.claims, s.lecturers, fromDate, toDate);
    var ks := AmountOrder(claims, LecturerKey());
    assert |ks| == |multiset(ks)| == |multiset(Keys(claims, LecturerKey()))| == |Keys(claims, LecturerKey())|;
    KeysCount(claims, LecturerKey());
    GroupRowsAddUp(claims, LecturerKey(), ks, LecturerDescribe(s.lecturers));
  }

  /**
    The department report has one row per department counted by its summary; its rows add up
    to the part of the summary's claims and total whose lecturer has a department.
  */
  lemma DepartmentRowsMatchSummary(s: Snapshot, fromDate: Instant, toDate: Instant)
    ensures |GenerateDepartmentSummaryReport(s, fromDate, toDate).data|
            == GenerateDepartmentSummaryReport(s, fromDate, toDate).summary.departmentsCount
    ensures Sum(GenerateDepartmentSummaryReport(s, fromDate, toDate).data, RowCount())
            <= GenerateDepartmentSummaryReport(s, fromDate, toDate).summary.totalClaims as real
    ensures Sum(GenerateDepartmentSummaryReport(s, fromDate, toDate).data, RowAmount())
            == Sum(WithDepartment(WithLecturerInPeriod(s.claims, s.lecturers, fromDate, toDate), s.lecturers), TotalAmount)
  {
    var claims := WithLecturerInPeriod(s.claims, s.lecturers, fromDate, toDate);
    var grouped := WithDepartment(claims, s.lecturers);
    var key := DepartmentKey(s.lecturers);
    var ks := AmountOrder(grouped, key);
    assert |ks| == |multiset(ks)| == |multiset(Keys(grouped, key))| == |Keys(grouped, key)|;
    KeysCount(grouped, key);
    GroupRowsAddUp(grouped, key, ks, DepartmentDescribe());
  }
}
