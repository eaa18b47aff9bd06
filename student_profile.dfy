/** A student's profile page: the personal details form, the academic
    record (one line per exam of the student's class), the attendance
    calendar of a month with its click-to-toggle days, and the fee records. */
module StudentProfile {
  import opened Types
  import opened Numeric
  import opened Seqs
  import opened Text
  import StudentService
  import ExamService
  import AttendanceService
  import FeeService

  // ---------------------------------------------------------------------------
  // Personal details

  datatype PersonalDetails = PersonalDetails(name: string, phone: string, email: string,
                                             address: string, className: string)

  /** The form filled from a student; a missing address becomes ''. */
  function DetailsOf(s: Student): (d: PersonalDetails)
    ensures d.name == s.name && d.phone == s.phone && d.email == s.email && d.className == s.className
    ensures s.address.Some? ==> d.address == s.address.value
    ensures s.address.None? ==> d.address == ""
  {
    PersonalDetails(s.name, s.phone, s.email, if s.address.Some? then s.address.value else "", s.className)
  }

  /** The update handlePersonalSave sends: the five edited fields, the
      address always as a string. */
  datatype StudentUpdate = StudentUpdate(name: string, phone: string, email: string,
                                         address: Option<string>, className: string)

  function UpdateOf(d: PersonalDetails): (u: StudentUpdate)
    ensures u.name == d.name && u.phone == d.phone && u.email == d.email && u.className == d.className
    ensures u.address == Some(d.address)
  {
    StudentUpdate(d.name, d.phone, d.email, Some(d.address), d.className)
  }

  /** Saving the form unedited writes the student's own fields back, except
      that a missing address is stored as ''. */
  lemma SaveUnedited(s: Student)
    ensures var u := UpdateOf(DetailsOf(s));
      u.name == s.name && u.phone == s.phone && u.email == s.email && u.className == s.className &&
      (s.address.Some? ==> u.address == s.address) &&
      (s.address.None? ==> u.address == Some(""))
  {
  }

  // ---------------------------------------------------------------------------
  // Academic record

  /** A line of the academic record: the exam, the student's marks and
      absence, and the rounded percentage. A percentage of None is the
      non-finite value (Infinity or NaN) that a zero total produces. */
  datatype ExamRecord = ExamRecord(exam: ExamWithStats, marksObtained: real, isAbsent: bool,
                                   percentage: Option<int>)

  /** The index of the first mark row of the student, if any. */
  function FindMark(marks: seq<ExamMarkWithStudent>, studentId: string): (r: Option<nat>)
    ensures r.Some? ==> r.value < |marks| && marks[r.value].studentId == studentId
    ensures r.Some? ==> forall j :: 0 <= j < r.value ==> marks[j].studentId != studentId
    ensures r.None? ==> forall j :: 0 <= j < |marks| ==> marks[j].studentId != studentId
  {
    if |marks| == 0 then None
    else if marks[0].studentId == studentId then Some(0)
    else match FindMark(marks[1..], studentId)
      case None => None
      case Some(k) => Some(k + 1)
  }

  /** Math.round(marks / total * 100): within a half of the exact
      percentage; non-finite when the total is zero; between 0 and 100 when
      the marks lie between 0 and a positive total. */
  function MarkPercent(marks: real, total: int): (r: Option<int>)
    ensures r.None? <==> total == 0
    ensures r.Some? ==>
      r.value as real - 0.5 <= marks / total as real * 100.0 < r.value as real + 0.5
    ensures total > 0 && 0.0 <= marks <= total as real ==> r.Some? && 0 <= r.value <= 100
  {
    if total == 0 then None
    else
      var x := marks / total as real * 100.0;
      assert total > 0 && 0.0 <= marks <= total as real ==> 0 <= Round(x) <= 100 by {
        if total > 0 && 0.0 <= marks <= total as real {
          ShareBounds(marks, total as real);
          RoundMono(0.0, x);
          RoundMono(x, 100.0);
          RoundInt(0);
          RoundInt(100);
        }
      }
      Some(Round(x))
  }

  /** One exam's line. With no mark row for the student, or when the
      details fail to load, the marks are 0, the student is not absent
      and the percentage is 0; an absent row has percentage 0 as well. */
  function ExamRecordOf(exam: ExamWithStats, details: Result<ExamService.ExamDetails>, studentId: string): (r: ExamRecord)
    ensures r.exam == exam
    ensures (details.Err? || FindMark(details.value.marks, studentId).None?) ==>
      r.marksObtained == 0.0 && !r.isAbsent && r.percentage == Some(0)
    ensures details.Ok? && FindMark(details.value.marks, studentId).Some? ==>
      var m := details.value.marks[FindMark(details.value.marks, studentId).value];
      r.marksObtained == m.marksObtained && r.isAbsent == m.isAbsent &&
      (m.isAbsent ==> r.percentage == Some(0)) &&
      (!m.isAbsent ==> r.percentage == MarkPercent(m.marksObtained, exam.exam.totalMarks))
  {
    if details.Err? then ExamRecord(exam, 0.0, false, Some(0))
    else match FindMark(details.value.marks, studentId)
      case None => ExamRecord(exam, 0.0, false, Some(0))
      case Some(k) =>
        var m := details.value.marks[k];
        ExamRecord(exam, m.marksObtained, m.isAbsent,
                   if m.isAbsent then Some(0) else MarkPercent(m.marksObtained, exam.exam.totalMarks))
  }

  /** A present student's percentage is 0..100 when the marks lie within a
      positive total. */
  lemma ExamRecordBounds(exam: ExamWithStats, details: Result<ExamService.ExamDetails>, studentId: string)
    requires exam.exam.totalMarks > 0
    requires details.Ok? ==>
      forall i :: 0 <= i < |details.value.marks| ==>
        0.0 <= details.value.marks[i].marksObtained <= exam.exam.totalMarks as real
    ensures var r := ExamRecordOf(exam, details, studentId);
      r.percentage.Some? && 0 <= r.percentage.value <= 100
  {
  }

  /** loadExamData: one line per exam, in the exams' order. */
  function ExamRecords(exams: seq<ExamWithStats>, detailsOf: string -> Result<ExamService.ExamDetails>,
                       studentId: string): (r: seq<ExamRecord>)
    ensures |r| == |exams|
    ensures forall i :: 0 <= i < |r| ==> r[i] == ExamRecordOf(exams[i], detailsOf(exams[i].exam.id), studentId)
  {
    seq(|exams|, i requires 0 <= i < |exams| => ExamRecordOf(exams[i], detailsOf(exams[i].exam.id), studentId))
  }

  // ---------------------------------------------------------------------------
  // Attendance calendar

  /** A click on a day: a present day becomes absent; an absent day or a
      day with no record becomes present. */
  function NextStatus(status: Option<AttendanceStatus>): (r: AttendanceStatus)
    ensures r == Absent <==> status == Some(Present)
    ensures r == Present <==> status != Some(Present)
  {
    if status == Some(Present) then Absent else Present
  }

  /** Two clicks return a recorded day to its status; a day with no record
      ends up absent. */
  lemma ClickTwice(status: Option<AttendanceStatus>)
    ensures status.Some? ==> NextStatus(Some(NextStatus(status))) == status.value
    ensures status.None? ==> NextStatus(Some(NextStatus(status))) == Absent
  {
  }

  function StatusOf(records: map<string, AttendanceStatus>, key: string): Option<AttendanceStatus>
  {
    if key in records then Some(records[key]) else None
  }

  datatype AttendanceCell =
    | Blank
    | DayButton(day: int, key: string, status: Option<AttendanceStatus>)

  /** A day's button: its key and the local record under that key. */
  function DayCell(records: map<string, AttendanceStatus>, year: int, month0: int, day: int): (c: AttendanceCell)
    ensures c.DayButton? && c.day == day && c.key == DateKey(year, month0, day)
    ensures c.status.Some? <==> c.key in records
    ensures c.status.Some? ==> c.status.value == records[c.key]
  {
    var key := DateKey(year, month0, day);
    DayButton(day, key, StatusOf(records, key))
  }

  /** A successful click on a day shows the new status on that day and
      leaves every other day of the month as it was. */
  lemma ClickChangesOnlyThatDay(records: map<string, AttendanceStatus>, year: nat, month0: nat, day: nat, other: nat)
    requires month0 < 12 && 1 <= day <= 31 && 1 <= other <= 31 && other != day
    ensures var c := DayCell(records, year, month0, day);
      var updated := records[c.key := NextStatus(c.status)];
      DayCell(updated, year, month0, day).status == Some(NextStatus(c.status)) &&
      DayCell(updated, year, month0, other) == DayCell(records, year, month0, other)
  {
    DateKeyDaysDistinct(year, month0, day, other);
  }

  /** renderCalendar: `firstDay` blanks, then one button per day of the month.
      The cells hold attendance statuses, not the event cells of
      EventManagement.RenderCalendar, so the loop is this page's own. */
  method RenderCalendar(year: int, month0: int, firstDay: nat, daysInMonth: nat,
                        records: map<string, AttendanceStatus>)
    returns (cells: seq<AttendanceCell>)
    ensures |cells| == firstDay + daysInMonth
    ensures forall i :: 0 <= i < firstDay ==> cells[i] == Blank
    ensures forall k :: firstDay <= k < |cells| ==> cells[k] == DayCell(records, year, month0, k - firstDay + 1)
  {
    cells := [];
    var i := 0;
    while i < firstDay
      invariant 0 <= i <= firstDay && |cells| == i
      invariant forall k :: 0 <= k < i ==> cells[k] == Blank
    {
      cells := cells + [Blank];
      i := i + 1;
    }
    var day := 1;
    while day <= daysInMonth
      invariant 1 <= day <= daysInMonth + 1
      invariant |cells| == firstDay + day - 1
      invariant forall k :: 0 <= k < firstDay ==> cells[k] == Blank
      invariant forall k :: firstDay <= k < |cells| ==> cells[k] == DayCell(records, year, month0, k - firstDay + 1)
    {
      ghost var prev := cells;
      var cell := DayCell(records, year, month0, day);
      cells := cells + [cell];
      forall k | firstDay <= k < |cells|
        ensures cells[k] == DayCell(records, year, month0, k - firstDay + 1)
      {
        if k < |prev| {
          assert cells[k] == prev[k];
        } else {
          assert k == |prev| && k - firstDay + 1 == day;
        }
      }
      assert forall k :: 0 <= k < firstDay ==> cells[k] == prev[k];
      day := day + 1;
    }
  }

  // ---------------------------------------------------------------------------
  // Fee records

  /** The fee tab: the month's records of this student only, in order. */
  function FeeRecordsOf(records: seq<FeeRecordWithStudent>, studentId: string): (r: seq<FeeRecordWithStudent>)
    ensures |r| <= |records|
    ensures Subseq(r, records)
    ensures forall i :: 0 <= i < |r| ==> r[i].record.studentId == studentId
  {
    Filter(records, (f: FeeRecordWithStudent) => f.record.studentId == studentId)
  }

  /** A record is on the tab exactly when it is among the month's records
      and belongs to the student. */
  lemma FeeRecordsOfMembers(records: seq<FeeRecordWithStudent>, studentId: string, f: FeeRecordWithStudent)
    ensures f in FeeRecordsOf(records, studentId) <==> f in records && f.record.studentId == studentId
  {
    FilterMembers(records, (f: FeeRecordWithStudent) => f.record.studentId == studentId, f);
  }

  /** The first fee record on the tab with the given id, if any. */
  function FindRecord(records: seq<FeeRecordWithStudent>, recordId: string): (r: Option<nat>)
    ensures r.Some? ==> r.value < |records| && records[r.value].record.id == recordId
    ensures r.Some? ==> forall j :: 0 <= j < r.value ==> records[j].record.id != recordId
    ensures r.None? ==> forall j :: 0 <= j < |records| ==> records[j].record.id != recordId
  {
    if |records| == 0 then None
    else if records[0].record.id == recordId then Some(0)
    else match FindRecord(records[1..], recordId)
      case None => None
      case Some(k) => Some(k + 1)
  }

  // ---------------------------------------------------------------------------
  // The page

  class StudentProfilePage {
    const studentId: string
    var student: Option<Student>
    var error: Option<string>
    var editingPersonal: bool
    var personalDetails: PersonalDetails
    var attendanceRecords: map<string, AttendanceStatus>
    var feeRecords: seq<FeeRecordWithStudent>
    var examRecords: seq<ExamRecord>

    constructor(id: string)
      ensures studentId == id && student == None && error == None && !editingPersonal
      ensures personalDetails == PersonalDetails("", "", "", "", "")
      ensures attendanceRecords == map[] && feeRecords == [] && examRecords == []
    {
      studentId := id;
      student := None;
      error := None;
      editingPersonal := false;
      personalDetails := PersonalDetails("", "", "", "", "");
      attendanceRecords := map[];
      feeRecords := [];
      examRecords := [];
    }

    /** loadStudent: the backend's lookup of this student's row. A found
        student fills the form; no such student is the error 'Student not
        found'; a failed lookup shows its error. */
    method LoadStudent(lookup: Lookup<Student>, statusesOf: string -> Result<seq<AttendanceStatus>>)
      modifies this
      ensures var fetch := StudentService.GetStudentById(lookup, statusesOf);
        (fetch.Ok? && fetch.value.Some? ==>
          student == fetch.value && personalDetails == DetailsOf(fetch.value.value) && error == None) &&
        (fetch.Ok? && fetch.value.None? ==>
          student == old(student) && personalDetails == old(personalDetails) && error == Some("Student not found")) &&
        (fetch.Err? ==>
          student == old(student) && personalDetails == old(personalDetails) && error == Some(fetch.message))
      ensures lookup.Found? ==> student.Some? && student.value.id == lookup.row.id
      ensures editingPersonal == old(editingPersonal) && attendanceRecords == old(attendanceRecords)
      ensures feeRecords == old(feeRecords) && examRecords == old(examRecords)
    {
      error := None;
      var fetch := StudentService.GetStudentById(lookup, statusesOf);
      if fetch.Err? {
        error := Some(fetch.message);
        return;
      }
      if fetch.value.None? {
        error := Some("Student not found");
        return;
      }
      student := fetch.value;
      personalDetails := DetailsOf(fetch.value.value);
    }

    /** loadExamData: the exams of the student's class, each with the
        student's line; a failed exam fetch is only logged. */
    method LoadExamData(examsFetch: Result<seq<ExamWithStats>>,
                        detailsOf: string -> Result<ExamService.ExamDetails>)
      modifies this
      ensures student.Some? && examsFetch.Ok? ==>
        examRecords == ExamRecords(examsFetch.value, detailsOf, student.value.id)
      ensures student.None? || examsFetch.Err? ==> examRecords == old(examRecords)
      ensures student == old(student) && error == old(error) && editingPersonal == old(editingPersonal)
      ensures personalDetails == old(personalDetails) && attendanceRecords == old(attendanceRecords)
      ensures feeRecords == old(feeRecords)
    {
      if student.None? || examsFetch.Err? {
        return;
      }
      examRecords := ExamRecords(examsFetch.value, detailsOf, student.value.id);
    }

    /** loadFeeData: the current month's records kept for this student; a
        failed fetch is only logged. */
    method LoadFeeData(recordsFetch: Result<seq<FeeRecordWithStudent>>)
      modifies this
      ensures student.Some? && recordsFetch.Ok? ==>
        feeRecords == FeeRecordsOf(recordsFetch.value, student.value.id)
      ensures student.None? || recordsFetch.Err? ==> feeRecords == old(feeRecords)
      ensures student == old(student) && error == old(error) && editingPersonal == old(editingPersonal)
      ensures personalDetails == old(personalDetails) && attendanceRecords == old(attendanceRecords)
      ensures examRecords == old(examRecords)
    {
      if student.None? || recordsFetch.Err? {
        return;
      }
      feeRecords := FeeRecordsOf(recordsFetch.value, student.value.id);
    }

    /** handleAttendanceChange: the attendance table is marked for this
        student and date; then only that date changes in the local map.
        A failure of markAttendance (its lookup or write failing, as
        `checkError` and `writeError` say) changes nothing and its message
        is alerted. */
    method HandleAttendanceChange(table: AttendanceService.AttendanceTable, dateKey: string,
                                  status: AttendanceStatus, checkError: Option<string>, writeError: Option<string>)
      returns (alert: Option<string>)
      modifies this, table
      ensures student.None? || checkError.Some? || writeError.Some? ==>
        attendanceRecords == old(attendanceRecords) && table.rows == old(table.rows)
      ensures student.None? ==> alert == None
      ensures student.Some? && checkError.Some? ==>
        alert == Some("Failed to update attendance: " + ("Failed to check existing attendance: " + checkError.value))
      ensures student.Some? && checkError.None? && writeError.Some? &&
              (student.value.id, dateKey) in old(table.rows) ==>
        alert == Some("Failed to update attendance: " + ("Failed to update attendance: " + writeError.value))
      ensures student.Some? && checkError.None? && writeError.Some? &&
              (student.value.id, dateKey) !in old(table.rows) ==>
        alert == Some("Failed to update attendance: " + ("Failed to create attendance: " + writeError.value))
      ensures student.Some? && checkError.None? && writeError.None? ==>
        alert == None &&
        table.rows == AttendanceService.Marked(old(table.rows), student.value.id, dateKey, status, student.value.className) &&
        attendanceRecords == old(attendanceRecords)[dateKey := status]
      ensures student == old(student) && error == old(error) && editingPersonal == old(editingPersonal)
      ensures personalDetails == old(personalDetails) && feeRecords == old(feeRecords)
      ensures examRecords == old(examRecords)
    {
      if student.None? {
        return None;
      }
      var marked := table.MarkAttendance(student.value.id, dateKey, status, student.value.className,
                                         checkError, writeError);
      if marked.Err? {
        return Some("Failed to update attendance: " + marked.message);
      }
      attendanceRecords := attendanceRecords[dateKey := status];
      return None;
    }

    /** handleFeeStatusChange: an id not on the tab does nothing; otherwise
        the record's student and month get the new status and the tab
        reloads; a failure is alerted. */
    method HandleFeeStatusChange(tables: FeeService.FeeTables, recordId: string, newStatus: FeeStatus,
                                 today: string, currentMonth: string, updateError: Option<string>,
                                 syncError: Option<string>,
                                 recordsFetch: Result<seq<FeeRecordWithStudent>>)
      returns (alert: Option<string>)
      modifies this, tables
      ensures FindRecord(old(feeRecords), recordId).None? ==>
        alert == None && feeRecords == old(feeRecords) &&
        tables.fees == old(tables.fees) && tables.feeStatus == old(tables.feeStatus)
      ensures FindRecord(old(feeRecords), recordId).Some? && updateError.Some? ==>
        alert == Some("Failed to update fee status: " + ("Failed to update fee record: " + updateError.value)) &&
        feeRecords == old(feeRecords) &&
        tables.fees == old(tables.fees) && tables.feeStatus == old(tables.feeStatus)
      ensures FindRecord(old(feeRecords), recordId).Some? && updateError.None? ==>
        var rec := old(feeRecords)[FindRecord(old(feeRecords), recordId).value].record;
        alert == None &&
        tables.fees == FeeService.StatusUpdated(old(tables.fees), rec.studentId, rec.month, newStatus, today) &&
        tables.feeStatus == (if syncError.None?
          then FeeService.FeeStatusSynced(old(tables.feeStatus), rec.studentId, rec.month, newStatus, currentMonth)
          else old(tables.feeStatus)) &&
        (student.Some? && recordsFetch.Ok? ==> feeRecords == FeeRecordsOf(recordsFetch.value, student.value.id)) &&
        (student.None? || recordsFetch.Err? ==> feeRecords == old(feeRecords))
      ensures student == old(student) && error == old(error) && editingPersonal == old(editingPersonal)
      ensures personalDetails == old(personalDetails) && attendanceRecords == old(attendanceRecords)
      ensures examRecords == old(examRecords)
    {
      var found := FindRecord(feeRecords, recordId);
      if found.None? {
        return None;
      }
      var rec := feeRecords[found.value].record;
      var r := tables.UpdateFeeRecordStatus(rec.studentId, rec.month, newStatus, today, currentMonth, updateError, syncError);
      if r.Err? {
        return Some("Failed to update fee status: " + r.message);
      }
      LoadFeeData(recordsFetch);
      return None;
    }

    /** handlePersonalSave: the form goes to the student's row, editing
        ends and the student reloads; a failure is alerted. Returns the
        update sent. */
    method HandlePersonalSave(saved: Result<()>, reload: Lookup<Student>,
                              statusesOf: string -> Result<seq<AttendanceStatus>>)
      returns (update: Option<StudentUpdate>, alert: Option<string>)
      modifies this
      ensures old(student).None? ==>
        update == None && alert == None && student == old(student) && error == old(error) &&
        editingPersonal == old(editingPersonal) && personalDetails == old(personalDetails)
      ensures old(student).Some? ==> update == Some(UpdateOf(old(personalDetails)))
      ensures old(student).Some? && saved.Err? ==>
        alert == Some(saved.message) && student == old(student) && error == old(error) &&
        editingPersonal == old(editingPersonal) && personalDetails == old(personalDetails)
      ensures old(student).Some? && saved.Ok? ==> alert == None && !editingPersonal
      ensures old(student).Some? && saved.Ok? && reload.Found? ==>
        student.Some? && student.value.id == reload.row.id &&
        personalDetails == DetailsOf(student.value) && error == None
      ensures old(student).Some? && saved.Ok? ==>
        var fetch := StudentService.GetStudentById(reload, statusesOf);
        (fetch.Ok? && fetch.value.Some? ==>
          student == fetch.value && personalDetails == DetailsOf(fetch.value.value) && error == None) &&
        (fetch.Ok? && fetch.value.None? ==>
          student == old(student) && personalDetails == old(personalDetails) && error == Some("Student not found")) &&
        (fetch.Err? ==>
          student == old(student) && personalDetails == old(personalDetails) && error == Some(fetch.message))
      ensures attendanceRecords == old(attendanceRecords) && feeRecords == old(feeRecords)
      ensures examRecords == old(examRecords)
    {
      if student.None? {
        return None, None;
      }
      update := Some(UpdateOf(personalDetails));
      if saved.Err? {
        return update, Some(saved.message);
      }
      editingPersonal := false;
      LoadStudent(reload, statusesOf);
      alert := None;
    }
  }
}
