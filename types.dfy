/** The records the dashboard stores in its backend tables and passes
    between services and pages. Timestamps and ids are opaque strings; money
    amounts, counts and rounded percentages are integers; marks and averages,
    which the pages read with parseFloat, are reals. */
module Types {

  datatype Option<T> = None | Some(value: T)

  /** The outcome of a backend call: a value, or the error message it threw. */
  datatype Result<T> = Ok(value: T) | Err(message: string)

  /** A `.single()` lookup: the row, the not-found code PGRST116, or any
      other error with its message. */
  datatype Lookup<T> = Found(row: T) | NotFound | Failed(reason: string)

  datatype AttendanceStatus = Present | Absent

  datatype FeeStatus = Paid | Pending | Overdue | NotStarted

  datatype Role = Admin | Teacher

  datatype NotesStatus = Distributed | Undistributed

  datatype Student = Student(
    id: string,
    name: string,
    email: string,
    phone: string,
    address: Option<string>,
    className: string,
    attendance: int,
    feeStatus: FeeStatus,
    feeAmount: int,
    enrollmentDate: string,
    createdAt: string,
    updatedAt: string)

  datatype AttendanceRecord = AttendanceRecord(
    id: string,
    studentId: string,
    date: string,
    status: AttendanceStatus,
    className: string,
    createdAt: string,
    updatedAt: string)

  datatype AttendanceWithStudent = AttendanceWithStudent(
    id: string,
    studentId: string,
    studentName: string,
    date: string,
    status: AttendanceStatus,
    className: string,
    createdAt: string,
    updatedAt: string)

  datatype AttendanceStats = AttendanceStats(
    totalStudents: int,
    presentCount: int,
    absentCount: int,
    attendanceRate: real)

  datatype Exam = Exam(
    id: string,
    name: string,
    className: string,
    subject: string,
    totalMarks: int,
    examDate: string,
    createdAt: string,
    updatedAt: string)

  datatype ExamWithStats = ExamWithStats(exam: Exam, avgMarks: real, numStudents: int)

  datatype ExamMark = ExamMark(
    id: string,
    examId: string,
    studentId: string,
    marksObtained: real,
    isAbsent: bool,
    createdAt: string,
    updatedAt: string)

  datatype ExamMarkWithStudent = ExamMarkWithStudent(
    id: string,
    examId: string,
    studentId: string,
    marksObtained: real,
    isAbsent: bool,
    createdAt: string,
    updatedAt: string,
    studentName: string,
    studentClass: string)

  datatype FeeRecord = FeeRecord(
    id: string,
    studentId: string,
    month: string,
    year: int,
    monthName: string,
    amount: int,
    status: FeeStatus,
    dueDate: string,
    paidDate: Option<string>,
    createdAt: string,
    updatedAt: string)

  datatype FeeRecordWithStudent = FeeRecordWithStudent(
    record: FeeRecord,
    studentName: string,
    studentClass: string,
    studentEmail: string)

  datatype MonthlyFeeStats = MonthlyFeeStats(
    totalStudents: int,
    paidCount: int,
    pendingCount: int,
    overdueCount: int,
    notStartedCount: int,
    paidPercentage: real,
    pendingPercentage: real,
    totalAmount: int,
    collectedAmount: int)

  datatype SyllabusChapter = SyllabusChapter(
    id: string,
    className: string,
    subject: string,
    chapterName: string,
    physicalClassConducted: bool,
    chapterEndTestStatus: bool,
    notesDistributionStatus: NotesStatus,
    revisionStatus: bool,
    createdAt: string,
    updatedAt: string)

  datatype SyllabusProgress = SyllabusProgress(
    className: string,
    subject: string,
    totalChapters: int,
    completedChapters: int,
    progressPercentage: int)

  datatype AppUser = AppUser(
    id: string,
    fullName: string,
    email: string,
    contactNumber: string,
    role: Role,
    isActive: bool,
    createdAt: string,
    updatedAt: string)

  datatype Event = Event(
    id: string,
    title: string,
    description: Option<string>,
    eventType: string,
    eventDate: string,
    eventTime: string,
    reminder: string)
}
