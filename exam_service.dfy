/** The exam service: looking an exam up, the marks sheet of an exam (one
    row per student of the exam's class, 0 marks and present by default),
    saving marks into the exam_marks table keyed by (exam_id, student_id),
    the per-exam statistics over the present students and the exam list
    with its statistics attached. */
module ExamService {
  import opened Types
  import opened Numeric
  import opened Seqs
  import opened Tables

  /** getExamById: null on the not-found code, a thrown error otherwise. */
  function GetExamById(lookup: Lookup<Exam>): (r: Result<Option<Exam>>)
    ensures lookup.Found? ==> r == Ok(Some(lookup.row))
    ensures lookup.NotFound? ==> r == Ok(None)
    ensures lookup.Failed? ==> r == Err("Failed to fetch exam: " + lookup.reason)
  {
    match lookup
    case Found(e) => Ok(Some(e))
    case NotFound => Ok(None)
    case Failed(reason) => Err("Failed to fetch exam: " + reason)
  }

  /** A student as the marks query selects it: `id, name, class`. */
  datatype StudentRef = StudentRef(id: string, name: string, className: string)

  datatype ExamDetails = ExamDetails(exam: Exam, marks: seq<ExamMarkWithStudent>)

  function StudentIdOf(m: ExamMark): string
  {
    m.studentId
  }

  /** One row of the marks sheet: the student's stored mark when there is
      one, otherwise 0 marks, present, and an empty id and timestamps. The
      exam id is always the requested one. */
  function SheetRow(student: StudentRef, existing: Option<ExamMark>, examId: string): (r: ExamMarkWithStudent)
    ensures r.examId == examId && r.studentId == student.id
    ensures r.studentName == student.name && r.studentClass == student.className
    ensures existing.None? ==>
      r.id == "" && r.marksObtained == 0.0 && !r.isAbsent && r.createdAt == "" && r.updatedAt == ""
    ensures existing.Some? ==>
      r.id == existing.value.id && r.marksObtained == existing.value.marksObtained &&
      r.isAbsent == existing.value.isAbsent &&
      r.createdAt == existing.value.createdAt && r.updatedAt == existing.value.updatedAt
  {
    match existing
    case None => ExamMarkWithStudent("", examId, student.id, 0.0, false, "", "", student.name, student.className)
    case Some(m) =>
      ExamMarkWithStudent(m.id, examId, student.id, m.marksObtained, m.isAbsent, m.createdAt, m.updatedAt,
                          student.name, student.className)
  }

  /** getExamDetails: the exam and its marks sheet, or the first error met. */
  method GetExamDetails(examId: string, examLookup: Lookup<Exam>,
                        studentsFetch: Result<seq<StudentRef>>,
                        marksFetch: Result<seq<ExamMark>>)
    returns (r: Result<ExamDetails>)
    ensures examLookup.Failed? ==> r == Err("Failed to fetch exam: " + examLookup.reason)
    ensures examLookup.NotFound? ==> r == Err("Exam not found")
    ensures examLookup.Found? && studentsFetch.Err? ==>
      r == Err("Failed to fetch students: " + studentsFetch.message)
    ensures examLookup.Found? && studentsFetch.Ok? && marksFetch.Err? ==>
      r == Err("Failed to fetch exam marks: " + marksFetch.message)
    ensures examLookup.Found? && studentsFetch.Ok? && marksFetch.Ok? ==>
      r.Ok? && r.value.exam == examLookup.row &&
      |r.value.marks| == |studentsFetch.value| &&
      forall i :: 0 <= i < |r.value.marks| ==>
        r.value.marks[i] == SheetRow(studentsFetch.value[i],
                                     LastWith(marksFetch.value, StudentIdOf, studentsFetch.value[i].id),
                                     examId)
  {
    var exam := GetExamById(examLookup);
    if exam.Err? {
      return Err(exam.message);
    }
    if exam.value.None? {
      return Err("Exam not found");
    }
    if studentsFetch.Err? {
      return Err("Failed to fetch students: " + studentsFetch.message);
    }
    if marksFetch.Err? {
      return Err("Failed to fetch exam marks: " + marksFetch.message);
    }
    var students := studentsFetch.value;
    var m := BuildIndex(marksFetch.value, StudentIdOf);
    var rows := seq(|students|, i requires 0 <= i < |students| =>
      SheetRow(students[i], Get(m, students[i].id), examId));
    return Ok(ExamDetails(exam.value.value, rows));
  }

  /** A mark as the marks page hands it to saveExamMarks. */
  datatype MarkInput = MarkInput(studentId: string, marksObtained: real, isAbsent: bool)

  /** A row of the saved payload. */
  datatype MarkToSave = MarkToSave(examId: string, studentId: string, marksObtained: real, isAbsent: bool)

  /** The saved payload: one row per input, in order, each tagged with the
      exam; an absent student is stored with −1 marks. */
  function MarksToSave(examId: string, marks: seq<MarkInput>): (r: seq<MarkToSave>)
    ensures |r| == |marks|
    ensures forall i :: 0 <= i < |r| ==>
      r[i].examId == examId && r[i].studentId == marks[i].studentId && r[i].isAbsent == marks[i].isAbsent &&
      (marks[i].isAbsent ==> r[i].marksObtained == -1.0) &&
      (!marks[i].isAbsent ==> r[i].marksObtained == marks[i].marksObtained)
  {
    seq(|marks|, i requires 0 <= i < |marks| =>
      MarkToSave(examId, marks[i].studentId,
                 if marks[i].isAbsent then -1.0 else marks[i].marksObtained, marks[i].isAbsent))
  }

  /** The columns of an exam_marks row besides its key. */
  datatype StoredMark = StoredMark(marksObtained: real, isAbsent: bool)

  function SaveKey(m: MarkToSave): (string, string)
  {
    (m.examId, m.studentId)
  }

  function WriteSaved(stored: Option<StoredMark>, m: MarkToSave): StoredMark
  {
    StoredMark(m.marksObtained, m.isAbsent)
  }

  /** Saving marks whose student ids are distinct succeeds, stores each
      student's mark (−1 when absent) under (exam, student), and leaves the
      marks of other exams and other students alone. */
  lemma SaveExamMarksSpec(rows: map<(string, string), StoredMark>, examId: string, marks: seq<MarkInput>)
    requires forall i, j :: 0 <= i < j < |marks| ==> marks[i].studentId != marks[j].studentId
    ensures Upsert(rows, MarksToSave(examId, marks), SaveKey, WriteSaved).Ok?
    ensures forall i :: 0 <= i < |marks| ==>
      Get(Upsert(rows, MarksToSave(examId, marks), SaveKey, WriteSaved).value, (examId, marks[i].studentId)) ==
        Some(StoredMark(if marks[i].isAbsent then -1.0 else marks[i].marksObtained, marks[i].isAbsent))
    ensures forall e, s :: (e != examId || forall i :: 0 <= i < |marks| ==> marks[i].studentId != s) ==>
      Get(Upsert(rows, MarksToSave(examId, marks), SaveKey, WriteSaved).value, (e, s)) == Get(rows, (e, s))
  {
    var batch := MarksToSave(examId, marks);
    assert !HasDuplicateKey(batch, SaveKey) by {
      forall i, j | 0 <= i < j < |batch|
        ensures SaveKey(batch[i]) != SaveKey(batch[j])
      {
        assert marks[i].studentId != marks[j].studentId;
      }
    }
    UpsertSpec(rows, batch, SaveKey, WriteSaved);
    var u := Upsert(rows, batch, SaveKey, WriteSaved).value;
    forall e, s | e != examId || forall i :: 0 <= i < |marks| ==> marks[i].studentId != s
      ensures Get(u, (e, s)) == Get(rows, (e, s))
    {
      WriteAllSpec(rows, batch, SaveKey, WriteSaved);
      assert !InBatch(batch, SaveKey, (e, s)) by {
        forall i | 0 <= i < |batch|
          ensures SaveKey(batch[i]) != (e, s)
        {
          assert batch[i].studentId == marks[i].studentId;
        }
      }
    }
  }

  /** The `exam_marks` table, keyed by (exam_id, student_id). */
  class ExamMarksTable {
    var rows: map<(string, string), StoredMark>

    constructor (initial: map<(string, string), StoredMark>)
      ensures rows == initial
    {
      rows := initial;
    }

    /** saveExamMarks: the payload upserted on (exam_id, student_id); an
        error leaves the table as it was. */
    method SaveExamMarks(examId: string, marks: seq<MarkInput>) returns (r: Result<()>)
      modifies this
      ensures Upsert(old(rows), MarksToSave(examId, marks), SaveKey, WriteSaved).Ok? ==>
        r == Ok(()) && rows == Upsert(old(rows), MarksToSave(examId, marks), SaveKey, WriteSaved).value
      ensures Upsert(old(rows), MarksToSave(examId, marks), SaveKey, WriteSaved).Err? ==>
        r == Err("Failed to save exam marks: " + Upsert(old(rows), MarksToSave(examId, marks), SaveKey, WriteSaved).message) &&
        rows == old(rows)
    {
      var u := Upsert(rows, MarksToSave(examId, marks), SaveKey, WriteSaved);
      if u.Err? {
        return Err("Failed to save exam marks: " + u.message);
      }
      rows := u.value;
      return Ok(());
    }
  }

  datatype ExamStats = ExamStats(avgMarks: real, numStudents: int)

  predicate Present(m: ExamMark)
  {
    !m.isAbsent
  }

  /** The marks of the stored rows. The details page computes the same
      over its own row type (ExamDetailsView.Values), which carries the
      student's name as well. */
  function MarksValues(marks: seq<ExamMark>): (r: seq<real>)
    ensures |r| == |marks| && forall i :: 0 <= i < |r| ==> r[i] == marks[i].marksObtained
  {
    seq(|marks|, i requires 0 <= i < |marks| => marks[i].marksObtained)
  }

  /** getExamStats over an exam's marks: only the present students count;
      num_students is their number and avg_marks their mean marks to one
      decimal, 0 when nobody is present. */
  function StatsOf(marks: seq<ExamMark>): (r: ExamStats)
    ensures r.numStudents == |Filter(marks, Present)|
    ensures r.numStudents == 0 ==> r.avgMarks == 0.0
    ensures OneDecimal(r.avgMarks)
    ensures r.numStudents > 0 ==>
      r.avgMarks - 0.05 <= Mean(MarksValues(Filter(marks, Present))) < r.avgMarks + 0.05
  {
    var present := Filter(marks, Present);
    ExamStats(Round1(Mean(MarksValues(present))), |present|)
  }

  /** With every present mark between 0 and the exam's total, the average
      lies in the same range. */
  lemma StatsBounds(marks: seq<ExamMark>, totalMarks: int)
    requires forall i :: 0 <= i < |marks| && !marks[i].isAbsent ==>
      0.0 <= marks[i].marksObtained <= totalMarks as real
    requires totalMarks >= 0
    ensures 0.0 <= StatsOf(marks).avgMarks <= totalMarks as real
  {
    var present := Filter(marks, Present);
    if |present| > 0 {
      var vs := MarksValues(present);
      forall i | 0 <= i < |vs|
        ensures 0.0 <= vs[i] <= totalMarks as real
      {
        SubseqMembers(present, marks, i);
      }
      MeanBounds(vs, 0.0, totalMarks as real);
      Round1Bounds(Mean(vs), 0, totalMarks);
    }
  }

  /** getExamStats as called: a failed fetch throws. */
  function GetExamStats(marksFetch: Result<seq<ExamMark>>): (r: Result<ExamStats>)
    ensures marksFetch.Err? ==> r == Err("Failed to fetch exam stats: " + marksFetch.message)
    ensures marksFetch.Ok? ==> r == Ok(StatsOf(marksFetch.value))
  {
    if marksFetch.Err? then Err("Failed to fetch exam stats: " + marksFetch.message)
    else Ok(StatsOf(marksFetch.value))
  }

  /** Exam k is the first, in list order, whose statistics query fails. */
  predicate FirstFailing(exams: seq<Exam>, marksOf: string -> Result<seq<ExamMark>>, k: int)
  {
    0 <= k < |exams| && marksOf(exams[k].id).Err? &&
    forall j :: 0 <= j < k ==> marksOf(exams[j].id).Ok?
  }

  /** The statistics of each exam attached, in the order fetched; the
      first exam, in list order, whose statistics fail makes the whole list
      fail with its message. */
  function AttachStats(exams: seq<Exam>, marksOf: string -> Result<seq<ExamMark>>): (r: Result<seq<ExamWithStats>>)
    ensures r.Ok? <==> forall i :: 0 <= i < |exams| ==> marksOf(exams[i].id).Ok?
    ensures r.Err? ==> exists k :: (FirstFailing(exams, marksOf, k) &&
                                   r.message == "Failed to fetch exam stats: " + marksOf(exams[k].id).message)
    ensures r.Ok? ==> |r.value| == |exams|
    ensures r.Ok? ==> forall i :: 0 <= i < |exams| ==>
      r.value[i] == ExamWithStats(exams[i], StatsOf(marksOf(exams[i].id).value).avgMarks,
                                  StatsOf(marksOf(exams[i].id).value).numStudents)
  {
    if |exams| == 0 then Ok([])
    else
      var first := GetExamStats(marksOf(exams[0].id));
      var rest := AttachStats(exams[1..], marksOf);
      if first.Err? then
        assert FirstFailing(exams, marksOf, 0);
        Err(first.message)
      else if rest.Err? then
        var k :| FirstFailing(exams[1..], marksOf, k) &&
          rest.message == "Failed to fetch exam stats: " + marksOf(exams[1..][k].id).message;
        assert FirstFailing(exams, marksOf, k + 1);
        rest
      else Ok([ExamWithStats(exams[0], first.value.avgMarks, first.value.numStudents)] + rest.value)
  }

  /** getAllExams: the fetched exams with their statistics. */
  function GetAllExams(examsFetch: Result<seq<Exam>>, marksOf: string -> Result<seq<ExamMark>>): (r: Result<seq<ExamWithStats>>)
    ensures examsFetch.Err? ==> r == Err("Failed to fetch exams: " + examsFetch.message)
    ensures examsFetch.Ok? ==> r == AttachStats(examsFetch.value, marksOf)
  {
    if examsFetch.Err? then Err("Failed to fetch exams: " + examsFetch.message)
    else AttachStats(examsFetch.value, marksOf)
  }

  /** getAvailableClasses: the distinct classes of the students, each at its
      first appearance. The attendance service's getClassList computes the
      same list (AttendanceService.ClassList); both are Distinct. */
  function AvailableClasses(classes: seq<string>): (r: seq<string>)
    ensures forall c :: c in r <==> c in classes
    ensures NoDups(r)
  {
    Distinct(classes)
  }

  /** getAvailableSubjects: a fixed list that needs no query and cannot
      fail; eight subjects, none repeated. */
  function GetAvailableSubjects(): (r: seq<string>)
    ensures |r| == 8 && NoDups(r)
  {
    ["Mathematics", "Science", "English", "Social Science", "Computer Science", "Physics", "Chemistry", "Biology"]
  }
}
