/** The attendance page: pick a class and a date, mark each student present
    or absent, and save the whole sheet in one upsert. */
module AttendanceManagement {
  import opened Types
  import opened Tables
  import opened Selection
  import AttendanceService

  /** handleStatusChange: the rows of the student get the status; every
      other row, and every other field, is left as it was. */
  function StatusChanged(rows: seq<AttendanceWithStudent>, studentId: string,
                         status: AttendanceStatus): (r: seq<AttendanceWithStudent>)
    ensures |r| == |rows|
    ensures forall i :: 0 <= i < |r| && rows[i].studentId == studentId ==> r[i] == rows[i].(status := status)
    ensures forall i :: 0 <= i < |r| && rows[i].studentId != studentId ==> r[i] == rows[i]
  {
    seq(|rows|, i requires 0 <= i < |rows| =>
      if rows[i].studentId == studentId then rows[i].(status := status) else rows[i])
  }

  /** Choosing the same status twice is choosing it once. */
  lemma StatusChangedIdempotent(rows: seq<AttendanceWithStudent>, studentId: string, status: AttendanceStatus)
    ensures StatusChanged(StatusChanged(rows, studentId, status), studentId, status) ==
      StatusChanged(rows, studentId, status)
  {
  }

  /** The later of two choices for one student is the one that remains. */
  lemma StatusChangedLastWins(rows: seq<AttendanceWithStudent>, studentId: string,
                              first: AttendanceStatus, second: AttendanceStatus)
    ensures StatusChanged(StatusChanged(rows, studentId, first), studentId, second) ==
      StatusChanged(rows, studentId, second)
  {
  }

  /** handleSaveAttendance's payload: one mark per row, with the row's
      student and status and the selected date and class. */
  function SavePayload(rows: seq<AttendanceWithStudent>, date: string, className: string): (r: seq<AttendanceService.Mark>)
    ensures |r| == |rows|
    ensures forall i :: 0 <= i < |r| ==>
      r[i].studentId == rows[i].studentId && r[i].status == rows[i].status &&
      r[i].date == date && r[i].className == className
  {
    seq(|rows|, i requires 0 <= i < |rows| =>
      AttendanceService.Mark(rows[i].studentId, date, rows[i].status, className))
  }

  /** No student appears twice on the sheet. */
  predicate DistinctStudents(rows: seq<AttendanceWithStudent>)
  {
    forall i, j :: 0 <= i < j < |rows| ==> rows[i].studentId != rows[j].studentId
  }

  /** Saving a sheet with one row per student succeeds, and afterwards the
      table holds, for the selected date, exactly the status of each row. */
  lemma SaveStoresSheet(table: map<(string, string), AttendanceService.Entry>,
                        rows: seq<AttendanceWithStudent>, date: string, className: string)
    requires DistinctStudents(rows)
    ensures var payload := SavePayload(rows, date, className);
      var u := Upsert(table, payload, AttendanceService.MarkKey, AttendanceService.WriteMark);
      u.Ok? &&
      forall i :: 0 <= i < |rows| ==>
        Get(u.value, (rows[i].studentId, date)) == Some(AttendanceService.Entry(rows[i].status, className))
  {
    var payload := SavePayload(rows, date, className);
    assert !HasDuplicateKey(payload, AttendanceService.MarkKey) by {
      forall i, j | 0 <= i < j < |payload|
        ensures AttendanceService.MarkKey(payload[i]) != AttendanceService.MarkKey(payload[j])
      {
        assert payload[i].studentId == rows[i].studentId;
      }
    }
    AttendanceService.BulkUpsertSpec(table, payload);
    forall i | 0 <= i < |rows|
      ensures AttendanceService.MarkKey(payload[i]) == (rows[i].studentId, date)
    {
    }
  }

  /** The save button's disabled rule. */
  predicate SaveDisabled(saving: bool, selectedClass: string, rows: seq<AttendanceWithStudent>)
  {
    saving || selectedClass == "" || |rows| == 0
  }

  /** When save is enabled the payload is non-empty and names a class. */
  lemma SaveEnabledPayload(saving: bool, selectedClass: string, rows: seq<AttendanceWithStudent>, date: string)
    requires !SaveDisabled(saving, selectedClass, rows)
    ensures |SavePayload(rows, date, selectedClass)| > 0
    ensures forall i :: 0 <= i < |SavePayload(rows, date, selectedClass)| ==>
      SavePayload(rows, date, selectedClass)[i].className != ""
  {
  }

  /** The page's state. */
  class AttendancePage {
    var selectedClass: string
    var selectedDate: string
    var attendanceData: seq<AttendanceWithStudent>
    var stats: AttendanceStats
    var classes: seq<string>
    var error: Option<string>
    var success: bool

    /** The page opens on today's date, which is passed in. */
    constructor(today: string)
      ensures selectedClass == "" && selectedDate == today && attendanceData == []
      ensures stats == AttendanceStats(0, 0, 0, 0.0) && classes == [] && error == None && !success
    {
      selectedClass := "";
      selectedDate := today;
      attendanceData := [];
      stats := AttendanceStats(0, 0, 0, 0.0);
      classes := [];
      error := None;
      success := false;
    }

    /** loadClasses: the class list, and the first class selected when none is. */
    method LoadClasses(fetch: Result<seq<string>>)
      modifies this
      ensures fetch.Ok? ==> classes == fetch.value && selectedClass == AutoSelected(fetch.value, old(selectedClass))
      ensures fetch.Ok? ==> error == old(error)
      ensures fetch.Err? ==> classes == old(classes) && selectedClass == old(selectedClass) && error == Some(fetch.message)
      ensures attendanceData == old(attendanceData) && stats == old(stats) && selectedDate == old(selectedDate)
      ensures success == old(success)
    {
      if fetch.Err? {
        error := Some(fetch.message);
        return;
      }
      classes := fetch.value;
      if |fetch.value| > 0 && selectedClass == "" {
        selectedClass := fetch.value[0];
      }
    }

    /** loadAttendanceData: nothing without a class; otherwise the sheet,
        or the error with the old sheet kept. */
    method LoadAttendanceData(fetch: Result<seq<AttendanceWithStudent>>)
      modifies this
      ensures selectedClass == "" ==> attendanceData == old(attendanceData) && error == old(error)
      ensures selectedClass != "" && fetch.Ok? ==> attendanceData == fetch.value && error == None
      ensures selectedClass != "" && fetch.Err? ==> attendanceData == old(attendanceData) && error == Some(fetch.message)
      ensures selectedClass == old(selectedClass) && selectedDate == old(selectedDate) && stats == old(stats)
      ensures classes == old(classes) && success == old(success)
    {
      if selectedClass == "" {
        return;
      }
      error := None;
      if fetch.Err? {
        error := Some(fetch.message);
        return;
      }
      attendanceData := fetch.value;
    }

    /** loadStats: the new figures; a failure is only logged. */
    method LoadStats(fetch: Result<AttendanceStats>)
      modifies this
      ensures selectedClass != "" && fetch.Ok? ==> stats == fetch.value
      ensures selectedClass == "" || fetch.Err? ==> stats == old(stats)
      ensures selectedClass == old(selectedClass) && selectedDate == old(selectedDate)
      ensures attendanceData == old(attendanceData) && classes == old(classes)
      ensures error == old(error) && success == old(success)
    {
      if selectedClass != "" && fetch.Ok? {
        stats := fetch.value;
      }
    }

    method HandleStatusChange(studentId: string, status: AttendanceStatus)
      modifies this
      ensures attendanceData == StatusChanged(old(attendanceData), studentId, status)
      ensures selectedClass == old(selectedClass) && selectedDate == old(selectedDate) && stats == old(stats)
      ensures classes == old(classes) && error == old(error) && success == old(success)
    {
      attendanceData := StatusChanged(attendanceData, studentId, status);
    }

    /** handleSaveAttendance: the sheet is written to the attendance table;
        on success the banner shows and the figures reload, on failure the
        error shows and the table is unchanged. */
    method HandleSaveAttendance(table: AttendanceService.AttendanceTable, statsFetch: Result<AttendanceStats>)
      modifies this, table
      ensures var u := Upsert(old(table.rows), SavePayload(old(attendanceData), old(selectedDate), old(selectedClass)),
                              AttendanceService.MarkKey, AttendanceService.WriteMark);
        (u.Ok? ==> table.rows == u.value && success && error == None) &&
        (u.Ok? && selectedClass != "" && statsFetch.Ok? ==> stats == statsFetch.value) &&
        (u.Ok? && (selectedClass == "" || statsFetch.Err?) ==> stats == old(stats)) &&
        (u.Err? ==> table.rows == old(table.rows) && stats == old(stats) && success == old(success)) &&
        (u.Err? ==> error == Some("Failed to save attendance: " + u.message))
      ensures attendanceData == old(attendanceData) && selectedClass == old(selectedClass)
      ensures selectedDate == old(selectedDate) && classes == old(classes)
    {
      error := None;
      var payload := SavePayload(attendanceData, selectedDate, selectedClass);
      var saved := table.BulkMarkAttendance(payload);
      if saved.Err? {
        error := Some(saved.message);
        return;
      }
      success := true;
      LoadStats(statsFetch);
    }
  }
}
