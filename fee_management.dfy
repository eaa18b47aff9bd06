/** The fee page: the fee records of the selected month (and class), the
    search over student name and email, the status drop-down of each row,
    the month picker and the invoice download name. */
module FeeManagement {
  import opened Types
  import opened Seqs
  import opened Text
  import FeeService

  /** The search: the student's name or email contains the term, ignoring case. */
  predicate MatchesSearch(term: string, r: FeeRecordWithStudent)
  {
    IncludesIgnoreCase(r.studentName, term) || IncludesIgnoreCase(r.studentEmail, term)
  }

  /** filterRecords: every record with an empty term, otherwise the
      matching records in order. */
  function FilterRecords(records: seq<FeeRecordWithStudent>, term: string): (r: seq<FeeRecordWithStudent>)
    ensures term == "" ==> r == records
    ensures Subseq(r, records)
    ensures term != "" ==> forall i :: 0 <= i < |r| ==> MatchesSearch(term, r[i])
  {
    if term == "" then
      assert Subseq(records, records) by { SubseqRefl(records); }
      records
    else Filter(records, r => MatchesSearch(term, r))
  }

  /** With a term, a record is listed exactly when it is among the records
      and matches. */
  lemma FilterRecordsMembers(records: seq<FeeRecordWithStudent>, term: string, x: FeeRecordWithStudent)
    requires term != ""
    ensures x in FilterRecords(records, term) <==> x in records && MatchesSearch(term, x)
  {
    FilterMembers(records, r => MatchesSearch(term, r), x);
  }

  /** The local update after a status change: the records of the student
      get the status, every other record is left as it was. */
  function StatusChanged(records: seq<FeeRecordWithStudent>, studentId: string, status: FeeStatus): (r: seq<FeeRecordWithStudent>)
    ensures |r| == |records|
    ensures forall i :: 0 <= i < |r| && records[i].record.studentId == studentId ==>
      r[i] == records[i].(record := records[i].record.(status := status))
    ensures forall i :: 0 <= i < |r| && records[i].record.studentId != studentId ==> r[i] == records[i]
  {
    seq(|records|, i requires 0 <= i < |records| =>
      if records[i].record.studentId == studentId then records[i].(record := records[i].record.(status := status))
      else records[i])
  }

  /** The invoice's download name: the student's name with white-space runs
      replaced by '-' and lower-cased, then the month. */
  function InvoiceFileName(studentName: string, month: string): string
  {
    "invoice-" + Lower(ReplaceSpaceRuns(studentName, "-")) + "-" + month + ".txt"
  }

  /** The name part of the file name has no white space and no upper-case
      ASCII letter; a name without white space is just lower-cased. */
  lemma InvoiceFileNameSpec(studentName: string, month: string)
    ensures var slug := Lower(ReplaceSpaceRuns(studentName, "-"));
      InvoiceFileName(studentName, month) == "invoice-" + slug + "-" + month + ".txt" &&
      (forall i :: 0 <= i < |slug| ==> !IsSpace(slug[i]) && !('A' <= slug[i] <= 'Z')) &&
      ((forall i :: 0 <= i < |studentName| ==> !IsSpace(studentName[i])) ==> slug == Lower(studentName))
  {
    ReplaceSpaceRunsNoSpace(studentName, "-", false);
    if forall i :: 0 <= i < |studentName| ==> !IsSpace(studentName[i]) {
      ReplaceSpaceRunsIdentity(studentName, "-", false);
    }
  }

  /** The classes of the class filter. */
  const FeeClasses: seq<string> := ["Grade-6", "Grade-7", "Grade-8"]

  /** The page's state. The filter effect re-runs whenever the records or
      the term change, so the shown list is always the filtered records. */
  class FeePage {
    var feeRecords: seq<FeeRecordWithStudent>
    var filteredRecords: seq<FeeRecordWithStudent>
    var selectedClass: string
    var selectedMonth: string
    var searchTerm: string
    var classes: seq<string>
    var availableMonths: seq<FeeService.MonthOption>
    var error: Option<string>
    var stats: MonthlyFeeStats

    predicate Valid()
      reads this
    {
      filteredRecords == FilterRecords(feeRecords, searchTerm)
    }

    constructor()
      ensures Valid()
      ensures feeRecords == [] && selectedClass == "" && selectedMonth == "" && searchTerm == ""
      ensures classes == [] && availableMonths == [] && error == None
      ensures stats == MonthlyFeeStats(0, 0, 0, 0, 0, 0.0, 0.0, 0, 0)
    {
      feeRecords := [];
      filteredRecords := [];
      selectedClass := "";
      selectedMonth := "";
      searchTerm := "";
      classes := [];
      availableMonths := [];
      error := None;
      stats := MonthlyFeeStats(0, 0, 0, 0, 0, 0.0, 0.0, 0, 0);
    }

    /** loadClasses: the fixed class list. */
    method LoadClasses()
      modifies this
      requires Valid()
      ensures Valid()
      ensures classes == FeeClasses
      ensures feeRecords == old(feeRecords) && searchTerm == old(searchTerm) && selectedMonth == old(selectedMonth)
      ensures selectedClass == old(selectedClass) && error == old(error) && stats == old(stats)
      ensures availableMonths == old(availableMonths)
    {
      classes := FeeClasses;
    }

    /** initializeData: the current month's records are generated, with the
        corrected insert-only semantics of EnsureCurrentMonthRecords, then
        the current month is selected; a failure shows its error. */
    method InitializeData(tables: FeeService.FeeTables, currentMonth: string, year: int, monthName: string,
                          studentsFetch: Result<seq<FeeService.StudentFee>>)
      modifies this, tables
      requires Valid()
      ensures Valid()
      ensures tables.feeStatus == old(tables.feeStatus)
      ensures studentsFetch.Err? ==>
        tables.fees == old(tables.fees) && selectedMonth == old(selectedMonth) &&
        error == Some("Failed to fetch students: " + studentsFetch.message)
      ensures studentsFetch.Ok? ==>
        tables.fees == FeeService.InsertMissing(old(tables.fees),
          FeeService.FeeRecordsForMonth(studentsFetch.value, currentMonth, year, monthName)) &&
        selectedMonth == currentMonth && error == None
      ensures feeRecords == old(feeRecords) && searchTerm == old(searchTerm) && selectedClass == old(selectedClass)
      ensures stats == old(stats) && classes == old(classes) && availableMonths == old(availableMonths)
    {
      error := None;
      var r := tables.EnsureCurrentMonthRecords(currentMonth, year, monthName, studentsFetch);
      if r.Err? {
        error := Some(r.message);
        return;
      }
      selectedMonth := currentMonth;
    }

    /** loadFeeRecords: nothing without a month; otherwise the records,
        then the figures; the first failure shows its error. */
    method LoadFeeRecords(recordsFetch: Result<seq<FeeRecordWithStudent>>, statsFetch: Result<MonthlyFeeStats>)
      modifies this
      requires Valid()
      ensures Valid()
      ensures selectedMonth == "" ==> feeRecords == old(feeRecords) && stats == old(stats) && error == old(error)
      ensures selectedMonth != "" && recordsFetch.Err? ==>
        feeRecords == old(feeRecords) && stats == old(stats) && error == Some(recordsFetch.message)
      ensures selectedMonth != "" && recordsFetch.Ok? ==> feeRecords == recordsFetch.value
      ensures selectedMonth != "" && recordsFetch.Ok? && statsFetch.Ok? ==> stats == statsFetch.value && error == None
      ensures selectedMonth != "" && recordsFetch.Ok? && statsFetch.Err? ==>
        stats == old(stats) && error == Some(statsFetch.message)
      ensures selectedMonth == old(selectedMonth) && selectedClass == old(selectedClass) && searchTerm == old(searchTerm)
      ensures classes == old(classes) && availableMonths == old(availableMonths)
    {
      if selectedMonth == "" {
        return;
      }
      error := None;
      if recordsFetch.Err? {
        error := Some(recordsFetch.message);
        return;
      }
      feeRecords := recordsFetch.value;
      filteredRecords := FilterRecords(feeRecords, searchTerm);
      if statsFetch.Err? {
        error := Some(statsFetch.message);
        return;
      }
      stats := statsFetch.value;
    }

    /** loadAvailableMonths: the picker's months; a failure is only logged. */
    method LoadAvailableMonths(fetch: Result<seq<FeeService.MonthOption>>)
      modifies this
      requires Valid()
      ensures Valid()
      ensures fetch.Ok? ==> availableMonths == fetch.value
      ensures fetch.Err? ==> availableMonths == old(availableMonths)
      ensures feeRecords == old(feeRecords) && searchTerm == old(searchTerm) && selectedMonth == old(selectedMonth)
      ensures selectedClass == old(selectedClass) && error == old(error) && stats == old(stats)
      ensures classes == old(classes)
    {
      if fetch.Ok? {
        availableMonths := fetch.value;
      }
    }

    /** Typing in the search box. */
    method SetSearchTerm(term: string)
      modifies this
      requires Valid()
      ensures Valid()
      ensures searchTerm == term && filteredRecords == FilterRecords(feeRecords, term)
      ensures feeRecords == old(feeRecords) && selectedMonth == old(selectedMonth) && selectedClass == old(selectedClass)
      ensures error == old(error) && stats == old(stats) && classes == old(classes)
      ensures availableMonths == old(availableMonths)
    {
      searchTerm := term;
      filteredRecords := FilterRecords(feeRecords, searchTerm);
    }

    /** handleStatusChange: the record is updated in the backend, then the
        local row and the figures; a failure is alerted. */
    method HandleStatusChange(tables: FeeService.FeeTables, studentId: string, newStatus: FeeStatus,
                              today: string, currentMonth: string, updateError: Option<string>,
                              syncError: Option<string>, statsFetch: Result<MonthlyFeeStats>)
      returns (alert: Option<string>)
      modifies this, tables
      requires Valid()
      ensures Valid()
      ensures updateError.Some? ==>
        alert == Some("Failed to update fee record: " + updateError.value) &&
        tables.fees == old(tables.fees) && tables.feeStatus == old(tables.feeStatus) &&
        feeRecords == old(feeRecords) && stats == old(stats)
      ensures updateError.None? ==>
        tables.fees == FeeService.StatusUpdated(old(tables.fees), studentId, old(selectedMonth), newStatus, today) &&
        tables.feeStatus == (if syncError.None?
          then FeeService.FeeStatusSynced(old(tables.feeStatus), studentId, old(selectedMonth), newStatus, currentMonth)
          else old(tables.feeStatus)) &&
        feeRecords == StatusChanged(old(feeRecords), studentId, newStatus)
      ensures updateError.None? && statsFetch.Ok? ==> alert == None && stats == statsFetch.value
      ensures updateError.None? && statsFetch.Err? ==> alert == Some(statsFetch.message) && stats == old(stats)
      ensures selectedMonth == old(selectedMonth) && selectedClass == old(selectedClass) && searchTerm == old(searchTerm)
      ensures error == old(error) && classes == old(classes) && availableMonths == old(availableMonths)
    {
      var r := tables.UpdateFeeRecordStatus(studentId, selectedMonth, newStatus, today, currentMonth, updateError, syncError);
      if r.Err? {
        return Some(r.message);
      }
      feeRecords := StatusChanged(feeRecords, studentId, newStatus);
      filteredRecords := FilterRecords(feeRecords, searchTerm);
      if statsFetch.Err? {
        return Some(statsFetch.message);
      }
      stats := statsFetch.value;
      return None;
    }
  }
}
