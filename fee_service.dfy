/** The fee service: generating a month's fee records for every student,
    the fee_records table keyed by (student_id, month) together with the
    students' overall fee_status, the status update with its paid-date rule,
    the monthly statistics and the list of months that have records. */
module FeeService {
  import opened Types
  import opened Numeric
  import opened Seqs
  import opened Tables
  import opened Text

  /** A student as the generator selects them: `id, fee_amount`. */
  datatype StudentFee = StudentFee(id: string, feeAmount: int)

  /** One generated record, with the columns the upsert supplies. */
  datatype NewFee = NewFee(studentId: string, month: string, year: int, monthName: string,
                           amount: int, status: FeeStatus, dueDate: string)

  /** The columns of a fee_records row besides its key (student_id, month). */
  datatype FeeRow = FeeRow(year: int, monthName: string, amount: int, status: FeeStatus,
                           dueDate: string, paidDate: Option<string>)

  /** `month.split('-')[1]`, rendered "undefined" by the template when the
      month has no dash. */
  function MonthField(month: string): string
  {
    var parts := Split(month, '-');
    if |parts| >= 2 then parts[1] else "undefined"
  }

  /** `${year}-${month.split('-')[1]}-15`: the due date, the 15th. */
  function DueDate(year: int, month: string): string
  {
    IntToString(year) + "-" + MonthField(month) + "-15"
  }

  /** For a month written `YYYY-MM` the due date is the 15th of that month
      in the given year. */
  lemma DueDateSpec(year: int, y: string, mm: string)
    requires '-' !in y && '-' !in mm
    ensures DueDate(year, y + "-" + mm) == IntToString(year) + "-" + mm + "-15"
  {
    assert y + "-" + mm == y + ['-'] + mm;
    SplitCons(y, mm, '-');
    SplitNoSep(mm, '-');
  }

  /** A month without a dash yields the literal text "undefined". */
  lemma DueDateWithoutDash(year: int, month: string)
    requires '-' !in month
    ensures DueDate(year, month) == IntToString(year) + "-undefined-15"
  {
    SplitNoSep(month, '-');
  }

  /** The generated batch: one record per student, in order, for the given
      month, with the student's fee amount, status 'not started' and the
      15th as due date. */
  function FeeRecordsForMonth(students: seq<StudentFee>, month: string, year: int, monthName: string): (r: seq<NewFee>)
    ensures |r| == |students|
    ensures forall i :: 0 <= i < |r| ==>
      r[i].studentId == students[i].id && r[i].month == month && r[i].year == year &&
      r[i].monthName == monthName && r[i].amount == students[i].feeAmount &&
      r[i].status == NotStarted && r[i].dueDate == DueDate(year, month)
  {
    seq(|students|, i requires 0 <= i < |students| =>
      NewFee(students[i].id, month, year, monthName, students[i].feeAmount, NotStarted, DueDate(year, month)))
  }

  function FeeKey(n: NewFee): (string, string)
  {
    (n.studentId, n.month)
  }

  /** The upsert sets every supplied column; paid_date is not supplied, so a
      stored row keeps its paid date and a new row has none. */
  function WriteCreated(stored: Option<FeeRow>, n: NewFee): FeeRow
  {
    FeeRow(n.year, n.monthName, n.amount, n.status, n.dueDate,
           if stored.Some? then stored.value.paidDate else None)
  }

  /** The paid-date rule: a row has a paid date exactly when it is paid. */
  predicate PaidDateConsistent(rows: map<(string, string), FeeRow>)
  {
    forall k :: k in rows ==> (rows[k].paidDate.Some? <==> rows[k].status == Paid)
  }

  /** As written, regenerating a month writes over the rows already there:
      a student's existing record for the month is set back to 'not
      started' and keeps its paid date. */
  lemma CreateOverwritesStatus(rows: map<(string, string), FeeRow>, students: seq<StudentFee>,
                               month: string, year: int, monthName: string, i: int)
    requires forall a, b :: 0 <= a < b < |students| ==> students[a].id != students[b].id
    requires 0 <= i < |students| && (students[i].id, month) in rows
    ensures var u := Upsert(rows, FeeRecordsForMonth(students, month, year, monthName), FeeKey, WriteCreated);
      u.Ok? && (students[i].id, month) in u.value &&
      u.value[(students[i].id, month)].status == NotStarted &&
      u.value[(students[i].id, month)].paidDate == rows[(students[i].id, month)].paidDate
  {
    var batch := FeeRecordsForMonth(students, month, year, monthName);
    assert !HasDuplicateKey(batch, FeeKey) by {
      forall a, b | 0 <= a < b < |batch|
        ensures FeeKey(batch[a]) != FeeKey(batch[b])
      {
        assert students[a].id != students[b].id;
      }
    }
    UpsertSpec(rows, batch, FeeKey, WriteCreated);
    assert FeeKey(batch[i]) == (students[i].id, month);
  }

  /** An input showing it: a record paid on the 5th is reset to 'not
      started' but keeps its paid date, so the paid-date rule no longer
      holds after the regeneration. */
  lemma CreateBreaksPaidDateRule()
    ensures var rows := map[("s1", "2025-01") := FeeRow(2025, "January", 500, Paid, "2025-01-15", Some("2025-01-05"))];
      var u := Upsert(rows, FeeRecordsForMonth([StudentFee("s1", 500)], "2025-01", 2025, "January"), FeeKey, WriteCreated);
      PaidDateConsistent(rows) && u.Ok? && !PaidDateConsistent(u.value)
  {
    var rows := map[("s1", "2025-01") := FeeRow(2025, "January", 500, Paid, "2025-01-15", Some("2025-01-05"))];
    var students := [StudentFee("s1", 500)];
    CreateOverwritesStatus(rows, students, "2025-01", 2025, "January", 0);
  }

  /** A generated record as a new row: no paid date. */
  function Created(n: NewFee): FeeRow
  {
    FeeRow(n.year, n.monthName, n.amount, n.status, n.dueDate, None)
  }

  /** Corrected generation: a record is inserted only for a (student, month)
      that has none, so existing rows are never touched. */
  function InsertMissing(rows: map<(string, string), FeeRow>, batch: seq<NewFee>): (r: map<(string, string), FeeRow>)
    ensures forall k :: k in rows ==> k in r && r[k] == rows[k]
    ensures forall i :: 0 <= i < |batch| ==> FeeKey(batch[i]) in r
    ensures forall k :: k in r && k !in rows ==> NewFrom(batch, k, r[k])
    decreases |batch|
  {
    if |batch| == 0 then rows
    else
      var k := FeeKey(batch[0]);
      var rows' := if k in rows then rows else rows[k := Created(batch[0])];
      var r := InsertMissing(rows', batch[1..]);
      assert forall j :: 0 <= j < |batch| - 1 ==> batch[1..][j] == batch[j + 1];
      assert forall k' :: k' in r && NewFrom(batch[1..], k', r[k']) ==> NewFrom(batch, k', r[k']);
      r
  }

  /** Row v under key k is the new row of some record of the batch. */
  predicate NewFrom(batch: seq<NewFee>, k: (string, string), v: FeeRow)
  {
    exists i :: 0 <= i < |batch| && FeeKey(batch[i]) == k && v == Created(batch[i])
  }

  /** Inserting generated 'not started' records keeps the paid-date rule. */
  lemma InsertMissingKeepsPaidDateRule(rows: map<(string, string), FeeRow>, students: seq<StudentFee>,
                                       month: string, year: int, monthName: string)
    requires PaidDateConsistent(rows)
    ensures PaidDateConsistent(InsertMissing(rows, FeeRecordsForMonth(students, month, year, monthName)))
  {
    var batch := FeeRecordsForMonth(students, month, year, monthName);
    var r := InsertMissing(rows, batch);
    forall k | k in r
      ensures r[k].paidDate.Some? <==> r[k].status == Paid
    {
      if k !in rows {
        var i :| 0 <= i < |batch| && FeeKey(batch[i]) == k && r[k] == Created(batch[i]);
      }
    }
  }

  /** The table after updateFeeRecordStatus: the (student, month) row, if
      there is one, gets the status and a paid date of today when paid and
      none otherwise; nothing else changes. */
  function StatusUpdated(rows: map<(string, string), FeeRow>, studentId: string, month: string,
                         status: FeeStatus, today: string): (r: map<(string, string), FeeRow>)
    ensures r.Keys == rows.Keys
    ensures forall k :: k in rows && k != (studentId, month) ==> r[k] == rows[k]
    ensures (studentId, month) in rows ==>
      var v := r[(studentId, month)];
      var w := rows[(studentId, month)];
      v.status == status && (status == Paid ==> v.paidDate == Some(today)) &&
      (status != Paid ==> v.paidDate == None) &&
      v.year == w.year && v.monthName == w.monthName && v.amount == w.amount && v.dueDate == w.dueDate
  {
    var key := (studentId, month);
    if key in rows then
      rows[key := rows[key].(status := status, paidDate := if status == Paid then Some(today) else None)]
    else rows
  }

  /** A status update keeps the paid-date rule. */
  lemma StatusUpdatedKeepsPaidDateRule(rows: map<(string, string), FeeRow>, studentId: string, month: string,
                                      status: FeeStatus, today: string)
    requires PaidDateConsistent(rows)
    ensures PaidDateConsistent(StatusUpdated(rows, studentId, month, status, today))
  {
  }

  /** The students' fee_status after the update: set only when the month is
      the current one and the student exists. */
  function FeeStatusSynced(feeStatus: map<string, FeeStatus>, studentId: string, month: string,
                           status: FeeStatus, currentMonth: string): (r: map<string, FeeStatus>)
    ensures r.Keys == feeStatus.Keys
    ensures month != currentMonth ==> r == feeStatus
    ensures month == currentMonth && studentId in feeStatus ==> r[studentId] == status
    ensures forall s :: s in feeStatus && s != studentId ==> r[s] == feeStatus[s]
  {
    if month == currentMonth && studentId in feeStatus then feeStatus[studentId := status] else feeStatus
  }

  /** The fee_records table and the fee_status column of students. `today`
      and `currentMonth` are the UTC date and `YYYY-MM` month of the clock. */
  class FeeTables {
    var fees: map<(string, string), FeeRow>
    var feeStatus: map<string, FeeStatus>

    constructor (fees0: map<(string, string), FeeRow>, feeStatus0: map<string, FeeStatus>)
      ensures fees == fees0 && feeStatus == feeStatus0
    {
      fees := fees0;
      feeStatus := feeStatus0;
    }

    /** createFeeRecordsForMonth as written: the generated batch upserted on
        (student_id, month), overwriting the supplied columns of rows that
        exist. */
    method CreateFeeRecordsForMonth(month: string, year: int, monthName: string,
                                    studentsFetch: Result<seq<StudentFee>>) returns (r: Result<()>)
      modifies this
      ensures feeStatus == old(feeStatus)
      ensures studentsFetch.Err? ==>
        r == Err("Failed to fetch students: " + studentsFetch.message) && fees == old(fees)
      ensures studentsFetch.Ok? && |studentsFetch.value| == 0 ==> r == Ok(()) && fees == old(fees)
      ensures studentsFetch.Ok? && |studentsFetch.value| > 0 ==>
        var u := Upsert(old(fees), FeeRecordsForMonth(studentsFetch.value, month, year, monthName), FeeKey, WriteCreated);
        (u.Ok? ==> r == Ok(()) && fees == u.value) &&
        (u.Err? ==> r == Err("Failed to create fee records: " + u.message) && fees == old(fees))
    {
      if studentsFetch.Err? {
        return Err("Failed to fetch students: " + studentsFetch.message);
      }
      if |studentsFetch.value| == 0 {
        return Ok(());
      }
      var batch := FeeRecordsForMonth(studentsFetch.value, month, year, monthName);
      var u := Upsert(fees, batch, FeeKey, WriteCreated);
      if u.Err? {
        return Err("Failed to create fee records: " + u.message);
      }
      fees := u.value;
      return Ok(());
    }

    /** Corrected generation: each student without a record for the month
        gets one; existing records, paid or not, are left as they are. */
    method CreateMissingFeeRecords(month: string, year: int, monthName: string,
                                   studentsFetch: Result<seq<StudentFee>>) returns (r: Result<()>)
      modifies this
      ensures feeStatus == old(feeStatus)
      ensures studentsFetch.Err? ==>
        r == Err("Failed to fetch students: " + studentsFetch.message) && fees == old(fees)
      ensures studentsFetch.Ok? ==>
        r == Ok(()) && fees == InsertMissing(old(fees), FeeRecordsForMonth(studentsFetch.value, month, year, monthName))
    {
      if studentsFetch.Err? {
        return Err("Failed to fetch students: " + studentsFetch.message);
      }
      fees := InsertMissing(fees, FeeRecordsForMonth(studentsFetch.value, month, year, monthName));
      return Ok(());
    }

    /** ensureCurrentMonthRecords: generation for the current month, with
        the corrected insert-only semantics of CreateMissingFeeRecords. The
        program as written calls CreateFeeRecordsForMonth here, whose upsert
        resets the month's existing records (CreateOverwritesStatus). */
    method EnsureCurrentMonthRecords(currentMonth: string, year: int, monthName: string,
                                     studentsFetch: Result<seq<StudentFee>>) returns (r: Result<()>)
      modifies this
      ensures feeStatus == old(feeStatus)
      ensures studentsFetch.Err? ==>
        r == Err("Failed to fetch students: " + studentsFetch.message) && fees == old(fees)
      ensures studentsFetch.Ok? ==>
        r == Ok(()) && fees == InsertMissing(old(fees), FeeRecordsForMonth(studentsFetch.value, currentMonth, year, monthName))
    {
      r := CreateMissingFeeRecords(currentMonth, year, monthName, studentsFetch);
    }

    /** updateFeeRecordStatus: the record's status with the paid-date rule,
        and the student's fee_status when the month is the current one. A
        failed update of the record throws and changes nothing. The error of
        the students write (syncError) is not checked: the call still
        resolves and fee_status keeps its old value. */
    method UpdateFeeRecordStatus(studentId: string, month: string, status: FeeStatus,
                                 today: string, currentMonth: string, updateError: Option<string>,
                                 syncError: Option<string>)
      returns (r: Result<()>)
      modifies this
      ensures updateError.Some? ==>
        r == Err("Failed to update fee record: " + updateError.value) && fees == old(fees) && feeStatus == old(feeStatus)
      ensures updateError.None? ==>
        r == Ok(()) &&
        fees == StatusUpdated(old(fees), studentId, month, status, today)
      ensures updateError.None? && syncError.None? ==>
        feeStatus == FeeStatusSynced(old(feeStatus), studentId, month, status, currentMonth)
      ensures updateError.None? && syncError.Some? ==> feeStatus == old(feeStatus)
    {
      if updateError.Some? {
        return Err("Failed to update fee record: " + updateError.value);
      }
      fees := StatusUpdated(fees, studentId, month, status, today);
      if month == currentMonth && studentId in feeStatus && syncError.None? {
        feeStatus := feeStatus[studentId := status];
      }
      return Ok(());
    }
  }

  predicate IsPaid(r: FeeRecord) { r.status == Paid }
  predicate IsPending(r: FeeRecord) { r.status == Pending }
  predicate IsOverdue(r: FeeRecord) { r.status == Overdue }
  predicate IsNotStarted(r: FeeRecord) { r.status == NotStarted }

  /** The fee amounts summed, as `reduce((sum, r) => sum + r.amount, 0)`. */
  function SumAmounts(records: seq<FeeRecord>): int
  {
    if |records| == 0 then 0 else records[0].amount + SumAmounts(records[1..])
  }

  /** A share of the records in percent, 0 for no records. */
  function Share(count: int, total: int): real
  {
    if total > 0 then count as real / total as real * 100.0 else 0.0
  }

  /** getMonthlyFeeStats over the month's records. */
  function MonthlyStats(records: seq<FeeRecord>): (r: MonthlyFeeStats)
    ensures r.totalStudents == |records|
    ensures r.paidCount == |Filter(records, IsPaid)| && r.pendingCount == |Filter(records, IsPending)|
    ensures r.overdueCount == |Filter(records, IsOverdue)| && r.notStartedCount == |Filter(records, IsNotStarted)|
    ensures |records| == 0 ==> r.paidPercentage == 0.0 && r.pendingPercentage == 0.0
    ensures OneDecimal(r.paidPercentage) && OneDecimal(r.pendingPercentage)
    ensures r.paidPercentage - 0.05 <= Share(r.paidCount, |records|) < r.paidPercentage + 0.05
    ensures r.pendingPercentage - 0.05 <= Share(r.pendingCount, |records|) < r.pendingPercentage + 0.05
    ensures r.totalAmount == SumAmounts(records)
    ensures r.collectedAmount == SumAmounts(Filter(records, IsPaid))
  {
    var total := |records|;
    var paid := |Filter(records, IsPaid)|;
    var pending := |Filter(records, IsPending)|;
    MonthlyFeeStats(total, paid, pending, |Filter(records, IsOverdue)|, |Filter(records, IsNotStarted)|,
                    Round1(Share(paid, total)), Round1(Share(pending, total)),
                    SumAmounts(records), SumAmounts(Filter(records, IsPaid)))
  }

  /** Every record has one of the four statuses, so the counts add up to the
      number of records. */
  lemma {:induction false} StatusCountsPartition(records: seq<FeeRecord>)
    ensures |Filter(records, IsPaid)| + |Filter(records, IsPending)| + |Filter(records, IsOverdue)| +
            |Filter(records, IsNotStarted)| == |records|
  {
    if |records| > 0 {
      StatusCountsPartition(records[1..]);
    }
  }

  /** With non-negative amounts the collected amount is at most the total. */
  lemma {:induction false} CollectedAtMostTotal(records: seq<FeeRecord>)
    requires forall i :: 0 <= i < |records| ==> records[i].amount >= 0
    ensures 0 <= SumAmounts(Filter(records, IsPaid)) <= SumAmounts(records)
  {
    if |records| > 0 {
      CollectedAtMostTotal(records[1..]);
    }
  }

  /** The two percentages lie in 0..100. */
  lemma PercentagesBounds(records: seq<FeeRecord>)
    ensures 0.0 <= MonthlyStats(records).paidPercentage <= 100.0
    ensures 0.0 <= MonthlyStats(records).pendingPercentage <= 100.0
  {
    RoundedShareBounds(|Filter(records, IsPaid)|, |records|);
    RoundedShareBounds(|Filter(records, IsPending)|, |records|);
  }

  lemma RoundedShareBounds(count: nat, total: nat)
    requires count <= total
    ensures 0.0 <= Round1(Share(count, total)) <= 100.0
  {
    if total > 0 {
      var x := count as real / total as real;
      ShareBounds(count as real, total as real);
      Round1Bounds(x * 100.0, 0, 100);
    } else {
      Round1Bounds(0.0, 0, 0);
    }
  }

  /** getMonthlyFeeStats as called: a failed fetch throws. */
  function GetMonthlyFeeStats(recordsFetch: Result<seq<FeeRecord>>): (r: Result<MonthlyFeeStats>)
    ensures recordsFetch.Err? ==> r == Err("Failed to fetch fee stats: " + recordsFetch.message)
    ensures recordsFetch.Ok? ==> r == Ok(MonthlyStats(recordsFetch.value))
  {
    if recordsFetch.Err? then Err("Failed to fetch fee stats: " + recordsFetch.message)
    else Ok(MonthlyStats(recordsFetch.value))
  }

  /** A row of the months query: `month, month_name, year`. */
  datatype MonthRow = MonthRow(month: string, monthName: string, year: int)

  /** An entry of the month picker. */
  datatype MonthOption = MonthOption(value: string, labelText: string)

  /** `${month_name} ${year}` */
  function Label(r: MonthRow): string
  {
    r.monthName + " " + IntToString(r.year)
  }

  function Months(rows: seq<MonthRow>): (r: seq<string>)
    ensures |r| == |rows| && forall i :: 0 <= i < |r| ==> r[i] == rows[i].month
  {
    seq(|rows|, i requires 0 <= i < |rows| => rows[i].month)
  }

  function Values(options: seq<MonthOption>): (r: seq<string>)
    ensures |r| == |options| && forall i :: 0 <= i < |r| ==> r[i] == options[i].value
  {
    seq(|options|, i requires 0 <= i < |options| => options[i].value)
  }

  /** The options the `uniqueMonths` Map ends with: one per month, made from
      the first row of that month, in order of first appearance. */
  function FirstMonths(rows: seq<MonthRow>): seq<MonthOption>
  {
    if |rows| == 0 then []
    else
      var d := FirstMonths(rows[..|rows| - 1]);
      var last := rows[|rows| - 1];
      if last.month in Values(d) then d else d + [MonthOption(last.month, Label(last))]
  }

  /** The months offered are the distinct months of the rows, in order of
      first appearance. */
  lemma {:induction false} FirstMonthsValues(rows: seq<MonthRow>)
    ensures Values(FirstMonths(rows)) == Distinct(Months(rows))
  {
    if |rows| > 0 {
      var p := rows[..|rows| - 1];
      FirstMonthsValues(p);
      assert Months(rows)[..|rows| - 1] == Months(p);
      var d := FirstMonths(p);
      if rows[|rows| - 1].month !in Values(d) {
        assert Values(d + [MonthOption(rows[|rows| - 1].month, Label(rows[|rows| - 1]))]) ==
               Values(d) + [rows[|rows| - 1].month];
      }
    }
  }

  /** Each option is labelled from the first row of its month. */
  lemma {:induction false} FirstMonthsLabels(rows: seq<MonthRow>)
    ensures forall k :: 0 <= k < |FirstMonths(rows)| ==>
      FirstMonths(rows)[k].value in Months(rows) &&
      FirstMonths(rows)[k].labelText == Label(rows[IndexOf(Months(rows), FirstMonths(rows)[k].value)])
  {
    if |rows| > 0 {
      var p := rows[..|rows| - 1];
      FirstMonthsLabels(p);
      var d := FirstMonths(p);
      var r := FirstMonths(rows);
      var ms := Months(rows);
      assert ms[..|p|] == Months(p);
      forall k | 0 <= k < |r|
        ensures r[k].value in ms && r[k].labelText == Label(rows[IndexOf(ms, r[k].value)])
      {
        if k < |d| {
          assert r[k] == d[k];
          var j := IndexOf(Months(p), d[k].value);
          assert ms[j] == d[k].value;
          IndexOfPrefix(ms, |p|, d[k].value);
        } else {
          var last := rows[|rows| - 1];
          assert last.month !in Values(d);
          assert r[k] == MonthOption(last.month, Label(last));
          assert last.month !in Months(p) by {
            FirstMonthsValues(p);
          }
          assert forall j :: 0 <= j < |p| ==> ms[j] == Months(p)[j];
          assert ms[|p|] == last.month;
          assert IndexOf(ms, last.month) == |p|;
        }
      }
    }
  }

  /** getAvailableMonths: the forEach that stores a month's option only the
      first time the month is seen. */
  method GetAvailableMonths(rowsFetch: Result<seq<MonthRow>>) returns (r: Result<seq<MonthOption>>)
    ensures rowsFetch.Err? ==> r == Err("Failed to fetch available months: " + rowsFetch.message)
    ensures rowsFetch.Ok? ==> r == Ok(FirstMonths(rowsFetch.value))
  {
    if rowsFetch.Err? {
      return Err("Failed to fetch available months: " + rowsFetch.message);
    }
    var rows := rowsFetch.value;
    var seen: set<string> := {};
    var options: seq<MonthOption> := [];
    var i := 0;
    while i < |rows|
      invariant 0 <= i <= |rows|
      invariant options == FirstMonths(rows[..i])
      invariant forall m :: m in seen <==> m in Values(options)
    {
      assert rows[..i + 1][..i] == rows[..i];
      if rows[i].month !in seen {
        seen := seen + {rows[i].month};
        assert Values(options + [MonthOption(rows[i].month, Label(rows[i]))]) == Values(options) + [rows[i].month];
        options := options + [MonthOption(rows[i].month, Label(rows[i]))];
      }
      i := i + 1;
    }
    assert rows[..|rows|] == rows;
    return Ok(options);
  }
}
