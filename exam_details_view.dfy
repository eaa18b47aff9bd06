/** The exam details page: the marks sheet of one exam, edited row by row,
    with its summary cards and the grade column. */
module ExamDetailsView {
  import opened Types
  import opened Numeric
  import opened Seqs
  import ExamService
  import Tables

  /** handleMarkChange: the rows of the student get the new mark and become
      present; every other row is left as it was. */
  function MarkChanged(marks: seq<ExamMarkWithStudent>, studentId: string, newMark: real): (r: seq<ExamMarkWithStudent>)
    ensures |r| == |marks|
    ensures forall i :: 0 <= i < |r| && marks[i].studentId == studentId ==>
      r[i] == marks[i].(marksObtained := newMark, isAbsent := false)
    ensures forall i :: 0 <= i < |r| && marks[i].studentId != studentId ==> r[i] == marks[i]
  {
    seq(|marks|, i requires 0 <= i < |marks| =>
      if marks[i].studentId == studentId then marks[i].(marksObtained := newMark, isAbsent := false)
      else marks[i])
  }

  /** The marks an absence toggle stores: -1 for absent, 0 for present. */
  function ToggledMark(isAbsent: bool): real
  {
    if isAbsent then -1.0 else 0.0
  }

  /** handleAbsentToggle: the rows of the student get the flag and the
      matching placeholder mark; every other row is left as it was. */
  function AbsentToggled(marks: seq<ExamMarkWithStudent>, studentId: string, isAbsent: bool): (r: seq<ExamMarkWithStudent>)
    ensures |r| == |marks|
    ensures forall i :: 0 <= i < |r| && marks[i].studentId == studentId ==>
      r[i] == marks[i].(isAbsent := isAbsent, marksObtained := ToggledMark(isAbsent))
    ensures forall i :: 0 <= i < |r| && marks[i].studentId != studentId ==> r[i] == marks[i]
  {
    seq(|marks|, i requires 0 <= i < |marks| =>
      if marks[i].studentId == studentId then marks[i].(isAbsent := isAbsent, marksObtained := ToggledMark(isAbsent))
      else marks[i])
  }

  /** Entering the same mark twice is entering it once. */
  lemma MarkChangedIdempotent(marks: seq<ExamMarkWithStudent>, studentId: string, newMark: real)
    ensures MarkChanged(MarkChanged(marks, studentId, newMark), studentId, newMark) ==
      MarkChanged(marks, studentId, newMark)
  {
  }

  /** A mark entered after an absence toggle overrides it: the student is
      present again with the entered mark. */
  lemma MarkAfterToggle(marks: seq<ExamMarkWithStudent>, studentId: string, isAbsent: bool, newMark: real)
    ensures MarkChanged(AbsentToggled(marks, studentId, isAbsent), studentId, newMark) ==
      MarkChanged(marks, studentId, newMark)
  {
  }

  /** `marks.map(m => ({ student_id, marks_obtained, is_absent }))`: the
      save payload, one input per row in row order. */
  function SavePayload(marks: seq<ExamMarkWithStudent>): (r: seq<ExamService.MarkInput>)
    ensures |r| == |marks|
    ensures forall i :: 0 <= i < |r| ==>
      r[i].studentId == marks[i].studentId && r[i].marksObtained == marks[i].marksObtained &&
      r[i].isAbsent == marks[i].isAbsent
  {
    seq(|marks|, i requires 0 <= i < |marks| =>
      ExamService.MarkInput(marks[i].studentId, marks[i].marksObtained, marks[i].isAbsent))
  }

  /** The page's state: the loaded exam, the editable marks and the banner. */
  class ExamDetailsPage {
    const examId: string
    var examData: Option<ExamService.ExamDetails>
    var marks: seq<ExamMarkWithStudent>
    var error: Option<string>
    var success: bool
    var editingMode: bool

    constructor(id: string)
      ensures examId == id && examData == None && marks == [] && error == None
      ensures !success && !editingMode
    {
      examId := id;
      examData := None;
      marks := [];
      error := None;
      success := false;
      editingMode := false;
    }

    /** loadExamDetails: the fetched exam and marks replace the state, or the
        error is shown and the state is kept. */
    method LoadExamDetails(data: Result<ExamService.ExamDetails>)
      modifies this
      ensures data.Ok? ==> examData == Some(data.value) && marks == data.value.marks && error == None
      ensures data.Err? ==> examData == old(examData) && marks == old(marks) && error == Some(data.message)
      ensures success == old(success) && editingMode == old(editingMode)
    {
      error := None;
      if data.Err? {
        error := Some(data.message);
        return;
      }
      examData := Some(data.value);
      marks := data.value.marks;
    }

    method HandleMarkChange(studentId: string, newMark: real)
      modifies this
      ensures marks == MarkChanged(old(marks), studentId, newMark)
      ensures examData == old(examData) && error == old(error)
      ensures success == old(success) && editingMode == old(editingMode)
    {
      marks := MarkChanged(marks, studentId, newMark);
    }

    method HandleAbsentToggle(studentId: string, isAbsent: bool)
      modifies this
      ensures marks == AbsentToggled(old(marks), studentId, isAbsent)
      ensures examData == old(examData) && error == old(error)
      ensures success == old(success) && editingMode == old(editingMode)
    {
      marks := AbsentToggled(marks, studentId, isAbsent);
    }

    /** handleSaveMarks: the sheet is upserted into the marks table; on
        success the banner shows, editing ends and the details reload; a
        failure is shown and nothing else changes. */
    method HandleSaveMarks(table: ExamService.ExamMarksTable, reload: Result<ExamService.ExamDetails>)
      modifies this, table
      ensures var u := Tables.Upsert(old(table.rows), ExamService.MarksToSave(examId, SavePayload(old(marks))),
                              ExamService.SaveKey, ExamService.WriteSaved);
        (u.Ok? ==> table.rows == u.value && success && !editingMode) &&
        (u.Ok? && reload.Ok? ==> examData == Some(reload.value) && marks == reload.value.marks && error == None) &&
        (u.Ok? && reload.Err? ==> examData == old(examData) && marks == old(marks) && error == Some(reload.message)) &&
        (u.Err? ==> table.rows == old(table.rows) && examData == old(examData) && marks == old(marks) &&
                    error == Some("Failed to save exam marks: " + u.message) &&
                    success == old(success) && editingMode == old(editingMode))
    {
      error := None;
      var r := table.SaveExamMarks(examId, SavePayload(marks));
      if r.Err? {
        error := Some(r.message);
        return;
      }
      success := true;
      editingMode := false;
      LoadExamDetails(reload);
    }
  }

  /** `(marks / total) * 100 >= k` in the page's floating-point arithmetic:
      with a zero total the quotient is +Infinity for a positive mark, NaN
      for a zero mark and -Infinity for a negative one. */
  predicate PercentAtLeast(marks: real, total: int, k: int)
  {
    if total > 0 then marks * 100.0 >= (k * total) as real
    else if total == 0 then marks > 0.0
    else marks * 100.0 <= (k * total) as real
  }

  /** With a non-zero total the comparison is the one on the quotient. */
  lemma PercentAtLeastSpec(marks: real, total: int, k: int)
    requires total != 0
    ensures PercentAtLeast(marks, total, k) <==> marks / total as real * 100.0 >= k as real
  {
    var t := total as real;
    var q := marks / t;
    assert q * t == marks;
    assert marks * 100.0 - (k * total) as real == (q * 100.0 - k as real) * t;
    if total > 0 {
      SignOfProduct(q * 100.0 - k as real, t);
    } else {
      SignOfProduct(k as real - q * 100.0, -t);
      assert (k as real - q * 100.0) * -t == (q * 100.0 - k as real) * t;
    }
  }

  /** A product with a positive factor has the sign of the other factor. */
  lemma SignOfProduct(x: real, t: real)
    requires t > 0.0
    ensures x * t >= 0.0 <==> x >= 0.0
  {
    if x < 0.0 {
      assert -x * t > 0.0;
    }
  }

  /** The displayed percentage of a row reaches k: absent rows count as 0. */
  predicate Reaches(m: ExamMarkWithStudent, total: int, k: int)
  {
    if m.isAbsent then 0 >= k else PercentAtLeast(m.marksObtained, total, k)
  }

  /** The grade column. */
  function Grade(m: ExamMarkWithStudent, total: int): string
  {
    if Reaches(m, total, 90) then "A+"
    else if Reaches(m, total, 80) then "A"
    else if Reaches(m, total, 70) then "B+"
    else if Reaches(m, total, 60) then "B"
    else if Reaches(m, total, 50) then "C+"
    else if Reaches(m, total, 40) then "C"
    else if m.isAbsent then "ABS"
    else "F"
  }

  /** An absent row always gets ABS, whatever its stored mark. */
  lemma GradeAbsent(m: ExamMarkWithStudent, total: int)
    requires m.isAbsent
    ensures Grade(m, total) == "ABS"
  {
  }

  /** The grade bands of a present row, on its percentage. */
  lemma GradeBands(m: ExamMarkWithStudent, total: int)
    requires total > 0 && !m.isAbsent
    ensures var p := m.marksObtained / total as real * 100.0;
      (Grade(m, total) == "A+" <==> p >= 90.0) &&
      (Grade(m, total) == "A" <==> 80.0 <= p < 90.0) &&
      (Grade(m, total) == "B+" <==> 70.0 <= p < 80.0) &&
      (Grade(m, total) == "B" <==> 60.0 <= p < 70.0) &&
      (Grade(m, total) == "C+" <==> 50.0 <= p < 60.0) &&
      (Grade(m, total) == "C" <==> 40.0 <= p < 50.0) &&
      (Grade(m, total) == "F" <==> p < 40.0)
  {
    PercentAtLeastSpec(m.marksObtained, total, 90);
    PercentAtLeastSpec(m.marksObtained, total, 80);
    PercentAtLeastSpec(m.marksObtained, total, 70);
    PercentAtLeastSpec(m.marksObtained, total, 60);
    PercentAtLeastSpec(m.marksObtained, total, 50);
    PercentAtLeastSpec(m.marksObtained, total, 40);
  }

  /** A present row passes the pass count's test exactly when its grade is
      not F: the summary card and the grade column agree. */
  lemma GradeAgreesWithPass(m: ExamMarkWithStudent, total: int)
    requires !m.isAbsent
    ensures Grade(m, total) != "F" <==> Passes(total, m)
  {
  }

  predicate IsPresent(m: ExamMarkWithStudent)
  {
    !m.isAbsent
  }

  /** The pass test of the summary: percentage at least 40. */
  predicate Passes(total: int, m: ExamMarkWithStudent)
  {
    PercentAtLeast(m.marksObtained, total, 40)
  }

  /** The present rows that pass. */
  function Passing(present: seq<ExamMarkWithStudent>, total: int): (r: seq<ExamMarkWithStudent>)
    ensures |r| <= |present|
    ensures forall i :: 0 <= i < |r| ==> Passes(total, r[i])
  {
    Filter(present, m => Passes(total, m))
  }

  /** The rows' marks. The page's rows carry the student's name, so they
      are not the service's ExamMark rows of ExamService.MarksValues. */
  function Values(marks: seq<ExamMarkWithStudent>): (r: seq<real>)
    ensures |r| == |marks| && forall i :: 0 <= i < |r| ==> r[i] == marks[i].marksObtained
  {
    seq(|marks|, i requires 0 <= i < |marks| => marks[i].marksObtained)
  }

  /** The summary cards. The average percentage is None where the page
      shows a non-finite value (a zero total). */
  datatype ViewStats = ViewStats(avgMarks: real, avgPercentage: Option<real>, totalStudents: int,
                                 passCount: int, presentCount: int, absentCount: int)

  /** calculateStats: zeros before the exam is loaded or with no rows;
      otherwise the rows split into present and absent, the present
      average to one decimal, its percentage of the total to one decimal,
      and the number of present rows at 40% or more. */
  function CalculateStats(examData: Option<ExamService.ExamDetails>, marks: seq<ExamMarkWithStudent>): (r: ViewStats)
    ensures examData.None? || |marks| == 0 ==> r == ViewStats(0.0, Some(0.0), 0, 0, 0, 0)
    ensures examData.Some? && |marks| > 0 ==>
      r.totalStudents == |marks| &&
      r.presentCount == |Filter(marks, IsPresent)| &&
      r.absentCount == |Reject(marks, IsPresent)| &&
      r.presentCount + r.absentCount == r.totalStudents &&
      r.passCount == |Passing(Filter(marks, IsPresent), examData.value.exam.totalMarks)| &&
      r.passCount <= r.presentCount
    ensures examData.Some? && |marks| > 0 ==>
      (r.presentCount == 0 ==> r.avgMarks == 0.0) && OneDecimal(r.avgMarks) &&
      r.avgMarks - 0.05 <= Mean(Values(Filter(marks, IsPresent))) < r.avgMarks + 0.05
    ensures examData.Some? && |marks| > 0 ==>
      (r.avgPercentage.None? <==> examData.value.exam.totalMarks == 0) &&
      (r.avgPercentage.Some? ==> OneDecimal(r.avgPercentage.value)) &&
      (r.avgPercentage.Some? ==>
        var p := Mean(Values(Filter(marks, IsPresent))) / examData.value.exam.totalMarks as real * 100.0;
        r.avgPercentage.value - 0.05 <= p < r.avgPercentage.value + 0.05)
  {
    if examData.None? || |marks| == 0 then ViewStats(0.0, Some(0.0), 0, 0, 0, 0)
    else
      var total := examData.value.exam.totalMarks;
      var present := Filter(marks, IsPresent);
      var absent := Reject(marks, IsPresent);
      FilterPartition(marks, IsPresent);
      var avg := Mean(Values(present));
      var avgPercentage := if total == 0 then None else Some(Round1(avg / total as real * 100.0));
      ViewStats(Round1(avg), avgPercentage, |marks|, |Passing(present, total)|, |present|, |absent|)
  }

  /** The pass-rate card: passed over present as a rounded percentage, 0
      when nobody is present. */
  function PassRate(s: ViewStats): (r: int)
    ensures s.presentCount <= 0 ==> r == 0
    ensures s.presentCount > 0 ==> r == Round(s.passCount as real / s.presentCount as real * 100.0)
    ensures 0 <= s.passCount <= s.presentCount ==> 0 <= r <= 100
  {
    if s.presentCount > 0 then
      RoundPercentIsRound(s.passCount, s.presentCount);
      if 0 <= s.passCount <= s.presentCount then RoundPercentBounds(s.passCount, s.presentCount); RoundPercent(s.passCount, s.presentCount)
      else RoundPercent(s.passCount, s.presentCount)
    else 0
  }

  /** The pass rate of the computed summary lies in 0..100. */
  lemma PassRateBounds(examData: Option<ExamService.ExamDetails>, marks: seq<ExamMarkWithStudent>)
    ensures 0 <= PassRate(CalculateStats(examData, marks)) <= 100
  {
  }
}
