/** The attendance service: the daily attendance sheet of a class (one row
    per student, absent by default), the attendance table keyed by
    (student_id, date) with its update-or-insert and upsert, the daily
    statistics and the list of classes. Each backend read is an input
    `Result`, an error being the message the query returned. */
module AttendanceService {
  import opened Types
  import opened Numeric
  import opened Seqs
  import opened Tables

  /** A student as the sheet query selects it: `id, name`. */
  datatype StudentRef = StudentRef(id: string, name: string)

  function StudentIdOf(r: AttendanceRecord): string
  {
    r.studentId
  }

  /** One sheet row: the student's record for the day when there is one,
      otherwise an absent row with empty id and timestamps. Date and class
      always come from the request. */
  function SheetRow(student: StudentRef, existing: Option<AttendanceRecord>,
                    date: string, className: string): (r: AttendanceWithStudent)
    ensures r.studentId == student.id && r.studentName == student.name
    ensures r.date == date && r.className == className
    ensures existing.None? ==>
      r.status == Absent && r.id == "" && r.createdAt == "" && r.updatedAt == ""
    ensures existing.Some? ==>
      r.status == existing.value.status && r.id == existing.value.id &&
      r.createdAt == existing.value.createdAt && r.updatedAt == existing.value.updatedAt
  {
    match existing
    case None => AttendanceWithStudent("", student.id, student.name, date, Absent, className, "", "")
    case Some(e) => AttendanceWithStudent(e.id, student.id, student.name, date, e.status, className, e.createdAt, e.updatedAt)
  }

  /** The attendance sheet of a class for a day: exactly one row per
      student, in the order the students were fetched. */
  method GetStudentsWithAttendance(className: string, date: string,
                                   studentsFetch: Result<seq<StudentRef>>,
                                   recordsFetch: Result<seq<AttendanceRecord>>)
    returns (r: Result<seq<AttendanceWithStudent>>)
    ensures studentsFetch.Err? ==> r == Err("Failed to fetch students: " + studentsFetch.message)
    ensures studentsFetch.Ok? && |studentsFetch.value| == 0 ==> r == Ok([])
    ensures studentsFetch.Ok? && |studentsFetch.value| > 0 && recordsFetch.Err? ==>
      r == Err("Failed to fetch attendance records: " + recordsFetch.message)
    ensures studentsFetch.Ok? && recordsFetch.Ok? ==>
      r.Ok? && |r.value| == |studentsFetch.value| &&
      forall i :: 0 <= i < |r.value| ==>
        r.value[i] == SheetRow(studentsFetch.value[i],
                               LastWith(recordsFetch.value, StudentIdOf, studentsFetch.value[i].id),
                               date, className)
  {
    if studentsFetch.Err? {
      return Err("Failed to fetch students: " + studentsFetch.message);
    }
    var students := studentsFetch.value;
    if |students| == 0 {
      return Ok([]);
    }
    if recordsFetch.Err? {
      return Err("Failed to fetch attendance records: " + recordsFetch.message);
    }
    var m := BuildIndex(recordsFetch.value, StudentIdOf);
    var rows := seq(|students|, i requires 0 <= i < |students| =>
      SheetRow(students[i], Get(m, students[i].id),
               date, className));
    return Ok(rows);
  }

  /** The columns of an attendance row besides its key. */
  datatype Entry = Entry(status: AttendanceStatus, className: string)

  /** One element of a bulk save: `{ student_id, date, status, class }`. */
  datatype Mark = Mark(studentId: string, date: string, status: AttendanceStatus, className: string)

  /** The table after markAttendance: an existing (student, date) row gets
      the new status and keeps its class; a missing one is inserted. */
  function Marked(rows: map<(string, string), Entry>, studentId: string, date: string,
                  status: AttendanceStatus, className: string): (r: map<(string, string), Entry>)
    ensures (studentId, date) in r && r[(studentId, date)].status == status
    ensures (studentId, date) in rows ==> r[(studentId, date)].className == rows[(studentId, date)].className
    ensures (studentId, date) !in rows ==> r[(studentId, date)].className == className
    ensures forall k :: k != (studentId, date) ==> (k in r <==> k in rows)
    ensures forall k :: k != (studentId, date) && k in rows ==> r[k] == rows[k]
  {
    var key := (studentId, date);
    if key in rows then rows[key := rows[key].(status := status)]
    else rows[key := Entry(status, className)]
  }

  /** The conflict key of a mark. */
  function MarkKey(m: Mark): (string, string)
  {
    (m.studentId, m.date)
  }

  /** The columns a mark supplies. */
  function WriteMark(stored: Option<Entry>, m: Mark): Entry
  {
    Entry(m.status, m.className)
  }

  /** bulkMarkAttendance's upsert on (student_id, date) succeeds exactly
      when no two marks share a key; then every marked key holds its status
      and class and every other key is untouched. */
  lemma BulkUpsertSpec(rows: map<(string, string), Entry>, batch: seq<Mark>)
    ensures Upsert(rows, batch, MarkKey, WriteMark).Ok? <==> !HasDuplicateKey(batch, MarkKey)
    ensures Upsert(rows, batch, MarkKey, WriteMark).Ok? ==>
      (forall i :: 0 <= i < |batch| ==>
        Get(Upsert(rows, batch, MarkKey, WriteMark).value, MarkKey(batch[i])) ==
          Some(Entry(batch[i].status, batch[i].className))) &&
      (forall k :: !InBatch(batch, MarkKey, k) ==>
        Get(Upsert(rows, batch, MarkKey, WriteMark).value, k) == Get(rows, k))
  {
    UpsertSpec(rows, batch, MarkKey, WriteMark);
    if !HasDuplicateKey(batch, MarkKey) {
      var u := Upsert(rows, batch, MarkKey, WriteMark).value;
      forall k | !InBatch(batch, MarkKey, k)
        ensures Get(u, k) == Get(rows, k)
      {
        WriteAllSpec(rows, batch, MarkKey, WriteMark);
      }
    }
  }

  /** The `attendance` table, keyed by its conflict key (student_id, date). */
  class AttendanceTable {
    var rows: map<(string, string), Entry>

    constructor (initial: map<(string, string), Entry>)
      ensures rows == initial
    {
      rows := initial;
    }

    /** markAttendance: look up the row for (studentId, date), then update
        its status or insert a new row; returns the stored row. The backend's
        answers come in as parameters: `checkError` is a lookup failure
        other than 'no rows', `writeError` a failure of the update or the
        insert. Each failure throws with its own prefix and writes nothing. */
    method MarkAttendance(studentId: string, date: string, status: AttendanceStatus, className: string,
                          checkError: Option<string>, writeError: Option<string>)
      returns (r: Result<Entry>)
      modifies this
      ensures checkError.Some? ==>
        r == Err("Failed to check existing attendance: " + checkError.value) && rows == old(rows)
      ensures checkError.None? && writeError.Some? && (studentId, date) in old(rows) ==>
        r == Err("Failed to update attendance: " + writeError.value) && rows == old(rows)
      ensures checkError.None? && writeError.Some? && (studentId, date) !in old(rows) ==>
        r == Err("Failed to create attendance: " + writeError.value) && rows == old(rows)
      ensures checkError.None? && writeError.None? ==>
        rows == Marked(old(rows), studentId, date, status, className) &&
        r == Ok(rows[(studentId, date)]) && r.value.status == status
    {
      if checkError.Some? {
        return Err("Failed to check existing attendance: " + checkError.value);
      }
      var key := (studentId, date);
      if key in rows {
        if writeError.Some? {
          return Err("Failed to update attendance: " + writeError.value);
        }
        rows := rows[key := rows[key].(status := status)];
      } else {
        if writeError.Some? {
          return Err("Failed to create attendance: " + writeError.value);
        }
        rows := rows[key := Entry(status, className)];
      }
      r := Ok(rows[key]);
    }

    /** bulkMarkAttendance: the upsert on (student_id, date); on an error
        the table is unchanged and the error is returned. */
    method BulkMarkAttendance(batch: seq<Mark>) returns (r: Result<()>)
      modifies this
      ensures Upsert(old(rows), batch, MarkKey, WriteMark).Ok? ==>
        r == Ok(()) && rows == Upsert(old(rows), batch, MarkKey, WriteMark).value
      ensures Upsert(old(rows), batch, MarkKey, WriteMark).Err? ==>
        r == Err("Failed to save attendance: " + Upsert(old(rows), batch, MarkKey, WriteMark).message) &&
        rows == old(rows)
    {
      var u := Upsert(rows, batch, MarkKey, WriteMark);
      if u.Err? {
        return Err("Failed to save attendance: " + u.message);
      }
      rows := u.value;
      return Ok(());
    }
  }

  predicate IsPresent(s: AttendanceStatus)
  {
    s == Present
  }

  /** getAttendanceStats over the class's students and the statuses of the
      day's records: presentCount counts 'present', absentCount is the rest
      of the class, and the rate is 0 for an empty class, else the present
      share in percent to one decimal. */
  function AttendanceStatsOf(students: seq<string>, statuses: seq<AttendanceStatus>): (r: AttendanceStats)
    ensures r.totalStudents == |students|
    ensures r.presentCount == |Filter(statuses, IsPresent)|
    ensures r.presentCount + r.absentCount == r.totalStudents
    ensures |students| == 0 ==> r.attendanceRate == 0.0
    ensures OneDecimal(r.attendanceRate)
    ensures |students| > 0 ==>
      r.attendanceRate - 0.05 <= r.presentCount as real / |students| as real * 100.0 < r.attendanceRate + 0.05
  {
    var total := |students|;
    var present := |Filter(statuses, IsPresent)|;
    var rate := if total > 0 then present as real / total as real * 100.0 else 0.0;
    AttendanceStats(total, present, total - present, Round1(rate))
  }

  /** When every record of the day belongs to a student of the class, the
      counts are non-negative and the rate lies in 0..100. */
  lemma AttendanceStatsBounds(students: seq<string>, statuses: seq<AttendanceStatus>)
    requires |statuses| <= |students|
    ensures 0 <= AttendanceStatsOf(students, statuses).absentCount
    ensures 0.0 <= AttendanceStatsOf(students, statuses).attendanceRate <= 100.0
  {
    var total := |students|;
    var present := |Filter(statuses, IsPresent)|;
    if total > 0 {
      var x := present as real / total as real;
      ShareBounds(present as real, total as real);
      Round1Bounds(x * 100.0, 0, 100);
    }
  }

  /** The service as called: a failed fetch throws its message. */
  function GetAttendanceStats(studentsFetch: Result<seq<string>>,
                              statusesFetch: Result<seq<AttendanceStatus>>): (r: Result<AttendanceStats>)
    ensures studentsFetch.Err? ==> r == Err("Failed to fetch students: " + studentsFetch.message)
    ensures studentsFetch.Ok? && statusesFetch.Err? ==>
      r == Err("Failed to fetch attendance: " + statusesFetch.message)
    ensures studentsFetch.Ok? && statusesFetch.Ok? ==>
      r == Ok(AttendanceStatsOf(studentsFetch.value, statusesFetch.value))
  {
    if studentsFetch.Err? then Err("Failed to fetch students: " + studentsFetch.message)
    else if statusesFetch.Err? then Err("Failed to fetch attendance: " + statusesFetch.message)
    else Ok(AttendanceStatsOf(studentsFetch.value, statusesFetch.value))
  }

  /** getClassList: the distinct classes of the fetched students, each at
      its first appearance. */
  function ClassList(classes: seq<string>): (r: seq<string>)
    ensures forall c :: c in r <==> c in classes
    ensures NoDups(r)
  {
    Distinct(classes)
  }

  /** The class list keeps first-appearance order. */
  lemma ClassListOrder(classes: seq<string>)
    ensures forall i, j :: 0 <= i < j < |ClassList(classes)| ==>
      IndexOf(classes, ClassList(classes)[i]) < IndexOf(classes, ClassList(classes)[j])
  {
    DistinctOrder(classes);
  }
}
