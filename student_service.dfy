/** The student service: the attendance percentage of a student and its
    attachment to every student row the service returns. `statusesOf(id)`
    is the backend's answer to "the attendance statuses of student id". */
module StudentService {
  import opened Types
  import opened Numeric
  import opened Seqs

  predicate IsPresent(s: AttendanceStatus)
  {
    s == Present
  }

  /** calculateStudentAttendance: Math.round(present / total * 100) over the
      student's records, and 0 when there are none or the query fails. */
  function CalculateStudentAttendance(statusesFetch: Result<seq<AttendanceStatus>>): (r: int)
    ensures statusesFetch.Err? ==> r == 0
    ensures statusesFetch.Ok? && |statusesFetch.value| == 0 ==> r == 0
    ensures statusesFetch.Ok? && |statusesFetch.value| > 0 ==>
      r == Round(|Filter(statusesFetch.value, IsPresent)| as real / |statusesFetch.value| as real * 100.0)
    ensures 0 <= r <= 100
    ensures (statusesFetch.Ok? && |statusesFetch.value| > 0 &&
             |Filter(statusesFetch.value, IsPresent)| == |statusesFetch.value|) ==> r == 100
    ensures statusesFetch.Ok? && |Filter(statusesFetch.value, IsPresent)| == 0 ==> r == 0
  {
    if statusesFetch.Err? || |statusesFetch.value| == 0 then 0
    else
      var total := |statusesFetch.value|;
      var present := |Filter(statusesFetch.value, IsPresent)|;
      RoundPercentIsRound(present, total);
      RoundPercentBounds(present, total);
      RoundPercent(present, total)
  }

  /** `{ ...student, attendance }` for every row: same rows in the same
      order, only the attendance field recomputed. */
  function AttachAttendance(students: seq<Student>, statusesOf: string -> Result<seq<AttendanceStatus>>): (r: seq<Student>)
    ensures |r| == |students|
    ensures forall i :: 0 <= i < |r| ==>
      r[i].(attendance := students[i].attendance) == students[i] &&
      r[i].attendance == CalculateStudentAttendance(statusesOf(students[i].id)) &&
      0 <= r[i].attendance <= 100
  {
    seq(|students|, i requires 0 <= i < |students| =>
      students[i].(attendance := CalculateStudentAttendance(statusesOf(students[i].id))))
  }

  /** getAllStudents: every fetched student with attendance attached. */
  function GetAllStudents(studentsFetch: Result<seq<Student>>,
                          statusesOf: string -> Result<seq<AttendanceStatus>>): (r: Result<seq<Student>>)
    ensures studentsFetch.Err? ==> r == Err("Failed to fetch students: " + studentsFetch.message)
    ensures studentsFetch.Ok? ==> r == Ok(AttachAttendance(studentsFetch.value, statusesOf))
  {
    if studentsFetch.Err? then Err("Failed to fetch students: " + studentsFetch.message)
    else Ok(AttachAttendance(studentsFetch.value, statusesOf))
  }

  /** searchStudents: the backend's matches with attendance attached. */
  function SearchStudents(matchesFetch: Result<seq<Student>>,
                          statusesOf: string -> Result<seq<AttendanceStatus>>): (r: Result<seq<Student>>)
    ensures matchesFetch.Err? ==> r == Err("Failed to search students: " + matchesFetch.message)
    ensures matchesFetch.Ok? ==> r == Ok(AttachAttendance(matchesFetch.value, statusesOf))
  {
    if matchesFetch.Err? then Err("Failed to search students: " + matchesFetch.message)
    else Ok(AttachAttendance(matchesFetch.value, statusesOf))
  }

  /** getStudentById: null on the not-found code, a thrown error on any
      other error, otherwise the row with attendance attached. */
  function GetStudentById(lookup: Lookup<Student>,
                          statusesOf: string -> Result<seq<AttendanceStatus>>): (r: Result<Option<Student>>)
    ensures lookup.NotFound? ==> r == Ok(None)
    ensures lookup.Failed? ==> r == Err("Failed to fetch student: " + lookup.reason)
    ensures lookup.Found? ==>
      r.Ok? && r.value.Some? &&
      r.value.value == lookup.row.(attendance := CalculateStudentAttendance(statusesOf(lookup.row.id)))
  {
    match lookup
    case NotFound => Ok(None)
    case Failed(reason) => Err("Failed to fetch student: " + reason)
    case Found(s) => Ok(Some(s.(attendance := CalculateStudentAttendance(statusesOf(s.id)))))
  }

  /** createStudent and updateStudent: the row the write returns, with its
      attendance recomputed; a failed write throws with the operation's
      message prefix. */
  function WrittenWithAttendance(written: Result<Student>, failure: string,
                                 statusesOf: string -> Result<seq<AttendanceStatus>>): (r: Result<Student>)
    ensures written.Err? ==> r == Err(failure + written.message)
    ensures written.Ok? ==>
      r.Ok? && r.value.(attendance := written.value.attendance) == written.value &&
      r.value.attendance == CalculateStudentAttendance(statusesOf(written.value.id))
  {
    if written.Err? then Err(failure + written.message)
    else Ok(written.value.(attendance := CalculateStudentAttendance(statusesOf(written.value.id))))
  }

  /** A newly created student has no attendance records, so 0%. */
  lemma NewStudentAttendance(inserted: Student, statusesOf: string -> Result<seq<AttendanceStatus>>)
    requires statusesOf(inserted.id) == Ok([])
    ensures WrittenWithAttendance(Ok(inserted), "Failed to create student: ", statusesOf) ==
      Ok(inserted.(attendance := 0))
  {
  }
}
