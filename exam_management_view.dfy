/** The exam list of a class and subject: the name search, the summary
    figures above the list, the per-exam percentage column and the refresh
    counter that reloads the list after a change. */
module ExamManagementView {
  import opened Types
  import opened Numeric
  import opened Seqs
  import opened Text
  import ExamService

  /** filterExams: every exam with an empty term, otherwise the exams whose
      name contains the term, ignoring case, in order. */
  function FilterExams(exams: seq<ExamWithStats>, term: string): (r: seq<ExamWithStats>)
    ensures term == "" ==> r == exams
    ensures |r| <= |exams|
    ensures Subseq(r, exams)
    ensures term != "" ==> forall i :: 0 <= i < |r| ==> IncludesIgnoreCase(r[i].exam.name, term)
  {
    if term == "" then
      assert Subseq(exams, exams) by { SubseqRefl(exams); }
      exams
    else Filter(exams, (e: ExamWithStats) => IncludesIgnoreCase(e.exam.name, term))
  }

  /** With a term, an exam is listed exactly when it is among the exams and
      its name matches. */
  lemma FilterExamsMembers(exams: seq<ExamWithStats>, term: string, e: ExamWithStats)
    requires term != ""
    ensures e in FilterExams(exams, term) <==> e in exams && IncludesIgnoreCase(e.exam.name, term)
  {
    FilterMembers(exams, (e: ExamWithStats) => IncludesIgnoreCase(e.exam.name, term), e);
  }

  /** `avg_marks / total_marks * 100` is a finite number for every exam. */
  predicate FiniteRatios(exams: seq<ExamWithStats>)
  {
    forall i :: 0 <= i < |exams| ==> exams[i].exam.totalMarks != 0
  }

  /** The percentage of each exam, `avg_marks / total_marks * 100`. */
  function Ratios(exams: seq<ExamWithStats>): (r: seq<real>)
    requires FiniteRatios(exams)
    ensures |r| == |exams|
    ensures forall i :: 0 <= i < |r| ==>
      r[i] == exams[i].avgMarks / exams[i].exam.totalMarks as real * 100.0
  {
    seq(|exams|, i requires 0 <= i < |exams| =>
      exams[i].avgMarks / exams[i].exam.totalMarks as real * 100.0)
  }

  /** getExamStats' avgPerformance: 0 with no exams, otherwise the rounded
      mean of the exams' percentages. A total of 0 divides by zero, which
      makes the sum, and so the figure, Infinity or NaN: None stands for
      that value. */
  function AvgPerformance(exams: seq<ExamWithStats>): (r: Option<int>)
    ensures |exams| == 0 ==> r == Some(0)
    ensures r.None? <==> !FiniteRatios(exams)
    ensures r.Some? && |exams| > 0 ==>
      r.value as real - 0.5 <= Mean(Ratios(exams)) < r.value as real + 0.5
  {
    if |exams| == 0 then Some(0)
    else if !FiniteRatios(exams) then None
    else Some(Round(Mean(Ratios(exams))))
  }

  /** With positive totals and averages within them, the figure is a
      percentage in 0..100. */
  lemma AvgPerformanceBounds(exams: seq<ExamWithStats>)
    requires forall i :: 0 <= i < |exams| ==>
      exams[i].exam.totalMarks > 0 && 0.0 <= exams[i].avgMarks <= exams[i].exam.totalMarks as real
    ensures AvgPerformance(exams).Some?
    ensures 0 <= AvgPerformance(exams).value <= 100
  {
    if |exams| > 0 {
      var xs := Ratios(exams);
      forall i | 0 <= i < |xs|
        ensures 0.0 <= xs[i] <= 100.0
      {
        PercentOfShare(exams[i].avgMarks, exams[i].exam.totalMarks as real);
      }
      MeanBounds(xs, 0.0, 100.0);
    }
  }

  /** a / t * 100 lies in 0..100 when 0 <= a <= t. */
  lemma PercentOfShare(a: real, t: real)
    requires t > 0.0 && 0.0 <= a <= t
    ensures 0.0 <= a / t * 100.0 <= 100.0
  {
    ShareBounds(a, t);
  }

  /** The percentage column: 0 unless the total is positive, otherwise the
      rounded percentage. */
  function ExamPercent(e: ExamWithStats): (r: int)
    ensures e.exam.totalMarks <= 0 ==> r == 0
    ensures e.exam.totalMarks > 0 ==>
      r as real - 0.5 <= e.avgMarks / e.exam.totalMarks as real * 100.0 < r as real + 0.5
    ensures e.exam.totalMarks > 0 && 0.0 <= e.avgMarks <= e.exam.totalMarks as real ==> 0 <= r <= 100
  {
    if e.exam.totalMarks > 0 then
      var r := Round(e.avgMarks / e.exam.totalMarks as real * 100.0);
      assert 0.0 <= e.avgMarks <= e.exam.totalMarks as real ==>
        0.0 <= e.avgMarks / e.exam.totalMarks as real * 100.0 <= 100.0 by {
        if 0.0 <= e.avgMarks <= e.exam.totalMarks as real {
          PercentOfShare(e.avgMarks, e.exam.totalMarks as real);
        }
      }
      r
    else 0
  }

  /** For a single exam with a positive total, the summary figure is the
      exam's own percentage. */
  lemma AvgPerformanceSingle(e: ExamWithStats)
    requires e.exam.totalMarks > 0
    ensures AvgPerformance([e]) == Some(ExamPercent(e))
  {
    assert SumReal(Ratios([e])) == Ratios([e])[0];
  }

  /** totalStudents: the sum of num_students over the exams. */
  function TotalStudents(exams: seq<ExamWithStats>): (r: int)
    ensures (forall i :: 0 <= i < |exams| ==> exams[i].numStudents >= 0) ==> r >= 0
  {
    if |exams| == 0 then 0 else TotalStudents(exams[..|exams| - 1]) + exams[|exams| - 1].numStudents
  }

  /** The count of a list of exams is the sum of the counts of its parts. */
  lemma {:induction false} TotalStudentsAppend(a: seq<ExamWithStats>, b: seq<ExamWithStats>)
    ensures TotalStudents(a + b) == TotalStudents(a) + TotalStudents(b)
    decreases |b|
  {
    if |b| > 0 {
      assert (a + b)[..|a + b| - 1] == a + b[..|b| - 1];
      TotalStudentsAppend(a, b[..|b| - 1]);
    } else {
      assert a + b == a;
    }
  }

  /** getExamStats. */
  datatype ExamListStats = ExamListStats(totalExams: int, avgPerformance: Option<int>, totalStudents: int)

  function GetExamStats(exams: seq<ExamWithStats>): (r: ExamListStats)
    ensures r.totalExams == |exams|
    ensures r.avgPerformance == AvgPerformance(exams)
    ensures r.totalStudents == TotalStudents(exams)
  {
    ExamListStats(|exams|, AvgPerformance(exams), TotalStudents(exams))
  }

  /** The view's state. */
  class ExamListView {
    var exams: seq<ExamWithStats>
    var filteredExams: seq<ExamWithStats>
    var searchTerm: string
    var subjects: seq<string>
    var error: Option<string>
    var selectedExamId: Option<string>
    var dropdownOpen: Option<string>
    var refreshTrigger: int

    /** The filter effect re-runs whenever the exams or the term change. */
    predicate Valid()
      reads this
    {
      filteredExams == FilterExams(exams, searchTerm)
    }

    constructor()
      ensures Valid()
      ensures exams == [] && searchTerm == "" && subjects == [] && error == None
      ensures selectedExamId == None && dropdownOpen == None && refreshTrigger == 0
    {
      exams := [];
      filteredExams := [];
      searchTerm := "";
      subjects := [];
      error := None;
      selectedExamId := None;
      dropdownOpen := None;
      refreshTrigger := 0;
    }

    /** loadExamData: the exams and the subject list, both or neither. The
        subject list is the service's fixed one, so only the exams fetch
        can fail. */
    method LoadExamData(examsFetch: Result<seq<ExamWithStats>>)
      modifies this
      requires Valid()
      ensures Valid()
      ensures examsFetch.Err? ==>
        exams == old(exams) && subjects == old(subjects) && error == Some(examsFetch.message)
      ensures examsFetch.Ok? ==>
        exams == examsFetch.value && subjects == ExamService.GetAvailableSubjects() && error == None
      ensures searchTerm == old(searchTerm) && selectedExamId == old(selectedExamId)
      ensures dropdownOpen == old(dropdownOpen) && refreshTrigger == old(refreshTrigger)
    {
      error := None;
      if examsFetch.Err? {
        error := Some(examsFetch.message);
        return;
      }
      exams := examsFetch.value;
      subjects := ExamService.GetAvailableSubjects();
      filteredExams := FilterExams(exams, searchTerm);
    }

    method SetSearchTerm(term: string)
      modifies this
      requires Valid()
      ensures Valid()
      ensures searchTerm == term && filteredExams == FilterExams(exams, term)
      ensures exams == old(exams) && subjects == old(subjects) && error == old(error)
      ensures selectedExamId == old(selectedExamId) && dropdownOpen == old(dropdownOpen)
      ensures refreshTrigger == old(refreshTrigger)
    {
      searchTerm := term;
      filteredExams := FilterExams(exams, term);
    }

    /** handleDeleteExam: nothing unless confirmed; a successful delete
        bumps the refresh counter and closes the menu; a failure is alerted. */
    method HandleDeleteExam(confirmed: bool, deleted: Result<()>) returns (alert: Option<string>)
      modifies this
      requires Valid()
      ensures Valid()
      ensures !confirmed ==> alert == None && refreshTrigger == old(refreshTrigger) && dropdownOpen == old(dropdownOpen)
      ensures confirmed && deleted.Ok? ==>
        alert == None && refreshTrigger == old(refreshTrigger) + 1 && dropdownOpen == None
      ensures confirmed && deleted.Err? ==>
        alert == Some(deleted.message) && refreshTrigger == old(refreshTrigger) && dropdownOpen == old(dropdownOpen)
      ensures exams == old(exams) && searchTerm == old(searchTerm) && subjects == old(subjects)
      ensures error == old(error) && selectedExamId == old(selectedExamId)
    {
      if !confirmed {
        return None;
      }
      if deleted.Err? {
        return Some(deleted.message);
      }
      refreshTrigger := refreshTrigger + 1;
      dropdownOpen := None;
      return None;
    }

    /** handleExamAdded. */
    method HandleExamAdded()
      modifies this
      requires Valid()
      ensures Valid()
      ensures refreshTrigger == old(refreshTrigger) + 1
      ensures exams == old(exams) && searchTerm == old(searchTerm) && subjects == old(subjects)
      ensures error == old(error) && selectedExamId == old(selectedExamId) && dropdownOpen == old(dropdownOpen)
    {
      refreshTrigger := refreshTrigger + 1;
    }

    /** handleBackFromDetails: leaves the details view and reloads. */
    method HandleBackFromDetails()
      modifies this
      requires Valid()
      ensures Valid()
      ensures selectedExamId == None && refreshTrigger == old(refreshTrigger) + 1
      ensures exams == old(exams) && searchTerm == old(searchTerm) && subjects == old(subjects)
      ensures error == old(error) && dropdownOpen == old(dropdownOpen)
    {
      selectedExamId := None;
      refreshTrigger := refreshTrigger + 1;
    }
  }
}
