/** The academics overview: the class list gathered from the syllabus and
    the exams, the subjects of the selected class (with a default list), the
    syllabus progress of each subject, the exam summary and the colour of a
    progress figure. */
module AcademicsManagement {
  import opened Types
  import opened Numeric
  import opened Seqs
  import opened Selection
  import SyllabusService
  import ExamManagementView

  /** `[...new Set([...syllabusClasses, ...examClasses])]`. */
  function AllClasses(syllabusClasses: seq<string>, examClasses: seq<string>): (r: seq<string>)
    ensures forall c :: c in r <==> c in syllabusClasses || c in examClasses
    ensures NoDups(r)
  {
    Distinct(syllabusClasses + examClasses)
  }

  /** The syllabus classes, which come deduplicated, lead the list in their
      own order. */
  lemma AllClassesSyllabusFirst(syllabusClasses: seq<string>, examClasses: seq<string>)
    requires NoDups(syllabusClasses)
    ensures |AllClasses(syllabusClasses, examClasses)| >= |syllabusClasses|
    ensures AllClasses(syllabusClasses, examClasses)[..|syllabusClasses|] == syllabusClasses
  {
    DistinctKeepsPrefix(syllabusClasses, examClasses);
  }

  lemma {:induction false} DistinctKeepsPrefix<T(!new)>(a: seq<T>, b: seq<T>)
    requires NoDups(a)
    ensures |Distinct(a + b)| >= |a|
    ensures Distinct(a + b)[..|a|] == a
    decreases |b|
  {
    if |b| == 0 {
      assert a + b == a;
      DistinctNoDups(a);
    } else {
      var s := a + b;
      assert s[..|s| - 1] == a + b[..|b| - 1];
      DistinctKeepsPrefix(a, b[..|b| - 1]);
      var d := Distinct(s[..|s| - 1]);
      if s[|s| - 1] !in d {
        assert (d + [s[|s| - 1]])[..|a|] == d[..|a|];
      }
    }
  }

  /** The subjects used when a class has no syllabus subjects. */
  const DefaultSubjects: seq<string> := ["Mathematics", "Science", "English", "Social Science", "Computer Science"]

  /** The class's subjects, or the default ones when it has none. */
  function FinalSubjects(classSubjects: seq<string>): (r: seq<string>)
    ensures |classSubjects| > 0 ==> r == classSubjects
    ensures |classSubjects| == 0 ==> r == DefaultSubjects
    ensures |r| > 0
  {
    if |classSubjects| > 0 then classSubjects else DefaultSubjects
  }

  /** `Promise.all` over calculateSyllabusProgress for each subject: the
      progress of every subject in order, or the failure of the first
      failing subject in list order. */
  function ProgressList(className: string, subjects: seq<string>,
                        chaptersOf: string -> Result<seq<SyllabusChapter>>): (r: Result<seq<SyllabusProgress>>)
    ensures r.Err? <==> exists i :: 0 <= i < |subjects| && chaptersOf(subjects[i]).Err?
    ensures r.Ok? ==> |r.value| == |subjects|
    ensures r.Ok? ==> forall i :: 0 <= i < |subjects| ==>
      chaptersOf(subjects[i]).Ok? &&
      r.value[i] == SyllabusService.SyllabusProgressOf(className, subjects[i], chaptersOf(subjects[i]).value)
  {
    if |subjects| == 0 then Ok([])
    else
      var n := |subjects| - 1;
      var front := ProgressList(className, subjects[..n], chaptersOf);
      var last := SyllabusService.CalculateSyllabusProgress(className, subjects[n], chaptersOf(subjects[n]));
      assert forall i :: 0 <= i < n ==> subjects[..n][i] == subjects[i];
      if front.Err? then
        Err(front.message)
      else if last.Err? then
        Err(last.message)
      else
        Ok(front.value + [last.value])
  }

  /** A failing list carries the message of its first failing subject, in
      list order. */
  lemma {:induction false} ProgressListFirstFailure(className: string, subjects: seq<string>,
                                                    chaptersOf: string -> Result<seq<SyllabusChapter>>)
    requires ProgressList(className, subjects, chaptersOf).Err?
    ensures exists k :: (SyllabusService.FirstFailing(subjects, chaptersOf, k) &&
                         ProgressList(className, subjects, chaptersOf).message ==
                           "Failed to fetch syllabus chapters: " + chaptersOf(subjects[k]).message)
  {
    var n := |subjects| - 1;
    var init := subjects[..n];
    var front := ProgressList(className, init, chaptersOf);
    if front.Err? {
      ProgressListFirstFailure(className, init, chaptersOf);
      var k :| SyllabusService.FirstFailing(init, chaptersOf, k) &&
        front.message == "Failed to fetch syllabus chapters: " + chaptersOf(init[k]).message;
      assert SyllabusService.FirstFailing(subjects, chaptersOf, k);
    } else {
      assert SyllabusService.FirstFailing(subjects, chaptersOf, n);
    }
  }

  /** The percentages of a list of progress records. */
  function PercentList(progress: seq<SyllabusProgress>): (r: seq<int>)
    ensures |r| == |progress|
    ensures forall i :: 0 <= i < |r| ==> r[i] == progress[i].progressPercentage
  {
    seq(|progress|, i requires 0 <= i < |progress| => progress[i].progressPercentage)
  }

  /** calculateOverallSyllabusProgress: 0 with no entries, otherwise the
      rounded mean of the percentages. */
  function OverallSyllabusProgress(progress: seq<SyllabusProgress>): (r: int)
    ensures |progress| == 0 ==> r == 0
    ensures |progress| > 0 ==>
      2 * |progress| * r <= 2 * Sum(PercentList(progress)) + |progress| < 2 * |progress| * r + 2 * |progress|
    ensures (forall i :: 0 <= i < |progress| ==> 0 <= progress[i].progressPercentage <= 100) ==> 0 <= r <= 100
  {
    var xs := PercentList(progress);
    if |progress| > 0 && forall i :: 0 <= i < |progress| ==> 0 <= progress[i].progressPercentage <= 100 then
      RoundedMeanBounds(xs, 0, 100);
      RoundedMean(xs)
    else RoundedMean(xs)
  }

  /** The page's list of progress records fails exactly when the service's
      list of percentages does, and otherwise carries the same percentages. */
  lemma {:induction false} ProgressPercentsAgree(className: string, subjects: seq<string>,
                                                 chaptersOf: string -> Result<seq<SyllabusChapter>>)
    ensures ProgressList(className, subjects, chaptersOf).Ok? <==>
      SyllabusService.Percentages(className, subjects, chaptersOf).Some?
    ensures ProgressList(className, subjects, chaptersOf).Ok? ==>
      PercentList(ProgressList(className, subjects, chaptersOf).value) ==
        SyllabusService.Percentages(className, subjects, chaptersOf).value
  {
    if |subjects| > 0 {
      var n := |subjects| - 1;
      var init := subjects[..n];
      ProgressPercentsAgree(className, init, chaptersOf);
      var front := ProgressList(className, init, chaptersOf);
      var percents := SyllabusService.Percentages(className, init, chaptersOf);
      var last := SyllabusService.CalculateSyllabusProgress(className, subjects[n], chaptersOf(subjects[n]));
      if front.Ok? && last.Ok? {
        assert PercentList(front.value + [last.value]) == PercentList(front.value) + [last.value.progressPercentage];
      }
    }
  }

  /** Hence the page's overall figure is the service's whenever the list
      loads. */
  lemma ProgressAgreesWithService(className: string, subjects: seq<string>,
                                  chaptersOf: string -> Result<seq<SyllabusChapter>>)
    ensures ProgressList(className, subjects, chaptersOf).Ok? <==>
      SyllabusService.Percentages(className, subjects, chaptersOf).Some?
    ensures ProgressList(className, subjects, chaptersOf).Ok? ==>
      OverallSyllabusProgress(ProgressList(className, subjects, chaptersOf).value) ==
        RoundedMean(SyllabusService.Percentages(className, subjects, chaptersOf).value)
  {
    ProgressPercentsAgree(className, subjects, chaptersOf);
  }

  /** getProgressColor: the badge colour of a percentage. */
  function ProgressColor(percentage: int): (r: string)
    ensures r == "text-green-600 bg-green-100" <==> percentage >= 80
    ensures r == "text-yellow-600 bg-yellow-100" <==> 60 <= percentage < 80
    ensures r == "text-orange-600 bg-orange-100" <==> 40 <= percentage < 60
    ensures r == "text-red-600 bg-red-100" <==> percentage < 40
  {
    if percentage >= 80 then "text-green-600 bg-green-100"
    else if percentage >= 60 then "text-yellow-600 bg-yellow-100"
    else if percentage >= 40 then "text-orange-600 bg-orange-100"
    else "text-red-600 bg-red-100"
  }

  /** getProgressBarColor: the bar colour of a percentage. It is a separate
      function of the page with its own class strings, so it is kept apart
      from ProgressColor; ColorsAgree ties their bands together. */
  function ProgressBarColor(percentage: int): (r: string)
    ensures r == "bg-green-500" <==> percentage >= 80
    ensures r == "bg-yellow-500" <==> 60 <= percentage < 80
    ensures r == "bg-orange-500" <==> 40 <= percentage < 60
    ensures r == "bg-red-500" <==> percentage < 40
  {
    if percentage >= 80 then "bg-green-500"
    else if percentage >= 60 then "bg-yellow-500"
    else if percentage >= 40 then "bg-orange-500"
    else "bg-red-500"
  }

  /** The badge and the bar use the same bands: two percentages share a
      badge colour exactly when they share a bar colour. */
  lemma ColorsAgree(p: int, q: int)
    ensures ProgressColor(p) == ProgressColor(q) <==> ProgressBarColor(p) == ProgressBarColor(q)
  {
  }

  /** The page's state. */
  class AcademicsPage {
    var selectedClass: string
    var selectedSubject: string
    var classes: seq<string>
    var subjects: seq<string>
    var syllabusProgress: seq<SyllabusProgress>
    var totalExams: int
    var avgPerformance: Option<int>
    var error: Option<string>

    constructor()
      ensures selectedClass == "" && selectedSubject == "" && classes == [] && subjects == []
      ensures syllabusProgress == [] && totalExams == 0 && avgPerformance == Some(0) && error == None
    {
      selectedClass := "";
      selectedSubject := "";
      classes := [];
      subjects := [];
      syllabusProgress := [];
      totalExams := 0;
      avgPerformance := Some(0);
      error := None;
    }

    /** loadInitialData: the class list from both sources, and the first
        class selected when none is. */
    method LoadInitialData(syllabusClasses: Result<seq<string>>, examClasses: Result<seq<string>>)
      modifies this
      ensures syllabusClasses.Err? ==>
        classes == old(classes) && selectedClass == old(selectedClass) && error == Some(syllabusClasses.message)
      ensures syllabusClasses.Ok? && examClasses.Err? ==>
        classes == old(classes) && selectedClass == old(selectedClass) && error == Some(examClasses.message)
      ensures syllabusClasses.Ok? && examClasses.Ok? ==>
        classes == AllClasses(syllabusClasses.value, examClasses.value) &&
        selectedClass == AutoSelected(classes, old(selectedClass)) && error == None
      ensures selectedSubject == old(selectedSubject) && subjects == old(subjects)
      ensures syllabusProgress == old(syllabusProgress) && totalExams == old(totalExams)
      ensures avgPerformance == old(avgPerformance)
    {
      error := None;
      if syllabusClasses.Err? {
        error := Some(syllabusClasses.message);
        return;
      }
      if examClasses.Err? {
        error := Some(examClasses.message);
        return;
      }
      classes := AllClasses(syllabusClasses.value, examClasses.value);
      if |classes| > 0 && selectedClass == "" {
        selectedClass := classes[0];
      }
    }

    /** loadClassData: the class's subjects (or the defaults), then their
        progress, then the exam summary; the first failure shows its error.
        Nothing is loaded while no class is selected. */
    method LoadClassData(classSubjects: Result<seq<string>>,
                         chaptersOf: string -> Result<seq<SyllabusChapter>>,
                         examsFetch: Result<seq<ExamWithStats>>)
      modifies this
      ensures selectedClass == "" ==>
        subjects == old(subjects) && error == old(error) &&
        syllabusProgress == old(syllabusProgress) && totalExams == old(totalExams) &&
        avgPerformance == old(avgPerformance)
      ensures selectedClass != "" && classSubjects.Err? ==>
        subjects == old(subjects) &&
        syllabusProgress == old(syllabusProgress) && error == Some(classSubjects.message)
      ensures selectedClass != "" && classSubjects.Ok? ==> subjects == FinalSubjects(classSubjects.value)
      ensures var progress := ProgressList(selectedClass, subjects, chaptersOf);
        selectedClass != "" && classSubjects.Ok? && progress.Err? ==>
        syllabusProgress == old(syllabusProgress) && error == Some(progress.message)
      ensures var progress := ProgressList(selectedClass, subjects, chaptersOf);
        selectedClass != "" && classSubjects.Ok? && progress.Ok? ==>
        syllabusProgress == progress.value &&
        (examsFetch.Err? ==> error == Some(examsFetch.message)) &&
        (examsFetch.Ok? ==> (error == None && totalExams == |examsFetch.value| &&
                             avgPerformance == ExamManagementView.AvgPerformance(examsFetch.value)))
      ensures totalExams != old(totalExams) || avgPerformance != old(avgPerformance) ==>
        selectedClass != "" && classSubjects.Ok? && ProgressList(selectedClass, subjects, chaptersOf).Ok? &&
        examsFetch.Ok?
      ensures selectedClass == old(selectedClass) && selectedSubject == old(selectedSubject) && classes == old(classes)
    {
      if selectedClass == "" {
        return;
      }
      error := None;
      if classSubjects.Err? {
        error := Some(classSubjects.message);
        return;
      }
      subjects := FinalSubjects(classSubjects.value);
      ApplyProgress(ProgressList(selectedClass, subjects, chaptersOf), examsFetch);
    }

    /** The steps of loadClassData after the subjects: the progress list,
        then the exam summary; the first failure shows its error. */
    method ApplyProgress(progress: Result<seq<SyllabusProgress>>, examsFetch: Result<seq<ExamWithStats>>)
      modifies this
      ensures progress.Err? ==> syllabusProgress == old(syllabusProgress) && error == Some(progress.message)
      ensures progress.Ok? ==> syllabusProgress == progress.value
      ensures progress.Ok? && examsFetch.Err? ==> error == Some(examsFetch.message)
      ensures progress.Ok? && examsFetch.Ok? ==>
        error == old(error) && totalExams == |examsFetch.value| &&
        avgPerformance == ExamManagementView.AvgPerformance(examsFetch.value)
      ensures totalExams != old(totalExams) || avgPerformance != old(avgPerformance) ==>
        progress.Ok? && examsFetch.Ok?
      ensures selectedClass == old(selectedClass) && selectedSubject == old(selectedSubject)
      ensures classes == old(classes) && subjects == old(subjects)
    {
      if progress.Err? {
        error := Some(progress.message);
        return;
      }
      syllabusProgress := progress.value;
      if examsFetch.Err? {
        error := Some(examsFetch.message);
        return;
      }
      totalExams := |examsFetch.value|;
      avgPerformance := ExamManagementView.AvgPerformance(examsFetch.value);
    }

    /** The effect on the subject list: the first subject is selected when
        there are subjects and none is selected. */
    method SelectFirstSubject()
      modifies this
      ensures selectedSubject == AutoSelected(subjects, old(selectedSubject))
      ensures selectedClass == old(selectedClass) && classes == old(classes) && subjects == old(subjects)
      ensures error == old(error) && syllabusProgress == old(syllabusProgress)
      ensures totalExams == old(totalExams) && avgPerformance == old(avgPerformance)
    {
      if |subjects| > 0 && selectedSubject == "" {
        selectedSubject := subjects[0];
      }
    }

    /** The overall figure shown on the page. */
    function OverallProgress(): (r: int)
      reads this
      ensures |syllabusProgress| == 0 ==> r == 0
      ensures (forall i :: 0 <= i < |syllabusProgress| ==> 0 <= syllabusProgress[i].progressPercentage <= 100) ==>
        0 <= r <= 100
    {
      OverallSyllabusProgress(syllabusProgress)
    }
  }
}
